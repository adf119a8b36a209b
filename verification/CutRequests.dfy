/** What accepting a request comes to when the connection ends early. */
module CutRequests {
  import opened Basics
  import opened FcgiProtocol
  import opened FcgiConnection
  import opened NameValue
  import opened ReaderSpec
  import opened ReaderTheorems
  import opened CutStreams
  import opened RequestReading

  /** The outcome for parameters that end in an error: the code asks how they decode, not how they end. */
  function Broken(entries: seq<seq<byte>>, got: Parsed): Acceptance {
    match got.end
    case Overflow => Overflowed
    case Inside => Refused
    case Between => BrokenOff(entries + got.entries)
  }

  /** The outcome for parameters that end as they should. */
  function Whole(entries: seq<seq<byte>>, got: Parsed, req: Begin, rest: seq<byte>, out: seq<byte>): Acceptance {
    match got.end
    case Overflow => Overflowed
    case Inside => Refused
    case Between => Accepted(req, entries + got.entries, rest, out)
  }

  /** The records of a stream, its last record and what follows, of which `n` bytes arrive. */
  lemma StreamCut(all: seq<byte>, end: Record, input: seq<byte>, n: nat)
    requires ValidRecord(end) && end.content == [] && n <= |all + Encode(end) + input|
    ensures
      if n < |all| + HEADER_LEN then
        n <= |all + Encode(end)| && (all + Encode(end) + input)[..n] == (all + Encode(end))[..n]
      else
        var i := n - |all| - HEADER_LEN;
        i <= |end.padding + input| && (all + Encode(end) + input)[..n] == all + (Head(end) + (end.padding + input)[..i])
  {
    EndApart(all, end, input);
    assert Encode(end) == Head(end) + end.padding;
    hide Head, Encode;
  }

  // ------------------------------------------------------------ the parameters

  /** Parameters whose last header has arrived, with anything after it. */
  lemma EnvironmentIsWhole(env: Env, entries: seq<seq<byte>>, req: Begin, out: seq<byte>, ps: seq<Record>, end: Record,
                           tail: seq<byte>)
    requires AllAcceptable(PARAMS, req, ps, false) && ValidRecords(ps) && Ending(PARAMS, req, end)
    requires Accepts(env.limit, out, |Replies(PARAMS, req, ps, false)|)
    ensures EnvironmentRead(env, entries, req, out, EncodeAll(ps) + (Head(end) + tail))
            == Whole(entries, ParsePairs(Delivered(PARAMS, req, ps, false)), req, tail,
                     out + Replies(PARAMS, req, ps, false))
  {
    ReadStream(env.(kind := PARAMS), req, ps, false, out, end, tail);
    hide Run, ParsePairs;
  }

  /** Parameters on a connection that stops taking replies: what has been delivered up to then decides. */
  lemma EnvironmentRefused(env: Env, entries: seq<seq<byte>>, req: Begin, out: seq<byte>, ps: seq<Record>,
                           rest: seq<byte>)
    requires AllAcceptable(PARAMS, req, ps, false) && ValidRecords(ps) && rest != []
    requires !Accepts(env.limit, out, |Replies(PARAMS, req, ps, false)|) && Accepts(env.limit, out, 0)
    ensures EnvironmentRead(env, entries, req, out, EncodeAll(ps) + rest)
            == var k := Answered(PARAMS, env.limit, req, ps, false, out);
               Broken(entries, ParsePairs(Delivered(PARAMS, req, ps[..k], false)))
  {
    RepliesRefused(env.(kind := PARAMS), req, ps, false, out, rest);
    hide Run, ParsePairs;
  }

  /** Parameters of which `n` bytes arrive: if the connection ends before their last header, success is reported
    * exactly when the bytes delivered end between two pairs, for the parameters that have arrived.
    */
  lemma EnvironmentCutShort(env: Env, entries: seq<seq<byte>>, req: Begin, out: seq<byte>, ps: seq<Record>, end: Record,
                            n: nat)
    requires AllAcceptable(PARAMS, req, ps, false) && ValidRecords(ps) && Ending(PARAMS, req, end)
    requires Accepts(env.limit, out, |Replies(PARAMS, req, ps, false)|)
    requires n <= |EncodeAll(ps) + Encode(end)|
    ensures var got := ParsePairs(DeliveredBy(PARAMS, req, ps, false, n));
      var a := EnvironmentRead(env, entries, req, out, (EncodeAll(ps) + Encode(end))[..n]);
      if n < |EncodeAll(ps)| + HEADER_LEN then a == Broken(entries, got)
      else
        a == Whole(entries, got, req, end.padding[..n - |EncodeAll(ps)| - HEADER_LEN],
                   out + Replies(PARAMS, req, ps, false))
  {
    hide Run, ParsePairs, Encode, EncodeAll, Replies, Delivered, DeliveredBy, AllAcceptable, Head;
    var all, wire := EncodeAll(ps), EncodeAll(ps) + Encode(end);
    StreamCut(all, end, [], n);
    assert wire + [] == wire && end.padding + [] == end.padding;
    if n < |all| + HEADER_LEN {
      StreamCutShort(env.(kind := PARAMS), req, ps, out, end, n);
    } else {
      EnvironmentIsWhole(env, entries, req, out, ps, end, end.padding[..n - |all| - HEADER_LEN]);
      DeliveredByAll(PARAMS, req, ps, false, n);
    }
  }

  /** For the pairs a server sends: success is reported, for the first of them only, exactly when the connection ends
    * behind one of them. (`d` is what has been delivered, `k` the number of whole pairs in it.)
    */
  lemma PairsCutShort(env: Env, entries: seq<seq<byte>>, req: Begin, out: seq<byte>, ps: seq<Record>, end: Record,
                      cs: seq<CodedPair>, n: nat)
    requires AllAcceptable(PARAMS, req, ps, false) && ValidRecords(ps) && Ending(PARAMS, req, end)
    requires Accepts(env.limit, out, |Replies(PARAMS, req, ps, false)|)
    requires !Swallows(PARAMS, req, ps, false) && !Leaks(req, ps, false)
    requires ValidCodedPairs(cs) && AllAllocatable(cs) && Contents(PARAMS, req, ps) == EncodePairs(cs)
    requires n < |EncodeAll(ps)| + HEADER_LEN
    ensures n <= |EncodeAll(ps) + Encode(end)|
    ensures var d := DeliveredBy(PARAMS, req, ps, false, n);
      var k := PairsWithin(cs, |d|);
      && d <= EncodePairs(cs)
      && EnvironmentRead(env, entries, req, out, (EncodeAll(ps) + Encode(end))[..n])
         == if |d| == |EncodePairs(cs[..k])| then BrokenOff(entries + Entries(cs[..k])) else Refused
  {
    StreamCutShort(env.(kind := PARAMS), req, ps, out, end, n);
    EnvironmentCutShort(env, entries, req, out, ps, end, n);
    DeliveryIsExact(PARAMS, req, ps, false);
    hide Run, ParsePairs, EnvironmentRead, Swallows, Leaks, EncodePairs, PairsWithin;
    var d := DeliveredBy(PARAMS, req, ps, false, n);
    assert d == EncodePairs(cs)[..|d|];
    CutPairs(cs, |d|);
  }

  /** Half an environment: a record of whole pairs, and then the end of the connection. */
  lemma HalfAnEnvironment(env: Env, req: Begin, out: seq<byte>, opening: Record, r: Record, cs: seq<CodedPair>)
    requires env.kind == 0 && !req.begun && Opening(opening) && opening.padding == []
    requires ValidRecord(r) && r.kind == PARAMS && r.id == opening.id && r.padding == []
    requires cs != [] && ValidCodedPairs(cs) && AllAllocatable(cs) && r.content == EncodePairs(cs)
    requires Accepts(env.limit, out, 0)
    ensures Accepting(env, req, out, Encode(opening) + Encode(r))
            == BrokenOff([RoleEntry(Announced(opening).role).value] + Entries(cs))
  {
    var info, role := Announced(opening), RoleEntry(Announced(opening).role).value;
    var wire := Encode(r);
    OpeningApart(opening, wire);
    assert opening.padding + wire == wire;
    OpeningIsRead(env, req, out, [], opening, wire);
    assert EncodeAll([]) + (Encode(opening) + wire) == Encode(opening) + wire;
    assert out + Replies(0, req, [], false) == out;
    PairNotEmpty(cs[0]);
    OnlyRecord(env.(kind := PARAMS), info, out, r);
    ParseEncodedPairs(cs);
    hide Run, RoleEntry, ParsePairs;
  }

  lemma PairNotEmpty(c: CodedPair)
    ensures ValidCoded(c) ==> EncodePair(c) != []
  {
  }

  lemma OnlyRecord(env: Env, req: Begin, out: seq<byte>, r: Record)
    requires ValidRecord(r) && Own(env.kind, req, r) && r.content != [] && Accepts(env.limit, out, 0)
    ensures var p := Run(env, NO_FRAME, req, out, Encode(r)); p.bytes == r.content && p.end == Fault(env.readFault)
  {
    assert Encode(r)[..|Encode(r)|] == Encode(r);
    ReadCut(env, false, req, out, r, |Encode(r)|);
    assert r.content[..|r.content|] == r.content;
  }

  // ------------------------------------------------------------ the opening

  /** Without all eight bytes of a BEGIN_REQUEST record no request begins. */
  lemma OpeningCutShort(env: Env, req: Begin, out: seq<byte>, before: seq<Record>, opening: Record, n: nat)
    requires AllAcceptable(env.kind, req, before, false) && ValidRecords(before)
    requires Accepts(env.limit, out, |Replies(env.kind, req, before, false)|)
    requires ValidRecord(opening) && BeginsRequest(req, opening)
    requires n < |EncodeAll(before) + (Head(opening) + opening.content)|
    ensures Run(env, NO_FRAME, req, out, (EncodeAll(before) + (Head(opening) + opening.content))[..n]).end
            == Fault(env.readFault)
  {
    var all, lead := EncodeAll(before), Head(opening) + opening.content;
    if n <= |all| {
      assert (all + lead)[..n] == all[..n];
      ReadCutRecords(env, req, before, false, out, n);
    } else {
      var part := lead[..n - |all|];
      assert (all + lead)[..n] == all + part;
      ReadRecords(env, req, before, false, out, part);
      LeadCutShort(env, SkipAtEnd(req, before, false), req, out + Replies(env.kind, req, before, false), opening,
                   n - |all|);
      hide Run;
    }
  }

  lemma LeadCutShort(env: Env, skip: bool, req: Begin, out: seq<byte>, opening: Record, n: nat)
    requires ValidRecord(opening) && BeginsRequest(req, opening) && n < |Head(opening) + opening.content|
    ensures Run(env, Frame(0, 0, skip), req, out, (Head(opening) + opening.content)[..n]).end == Fault(env.readFault)
  {
    if n < HEADER_LEN {
      TooShort(env, skip, req, out, (Head(opening) + opening.content)[..n]);
    } else {
      var part := opening.content[..n - HEADER_LEN];
      assert (Head(opening) + opening.content)[..n] == Head(opening) + part;
      AtHead(env, skip, req, out, opening, part);
    }
  }

  // ------------------------------------------------------------ whole requests

  /** What does not begin with the version never gives anything. */
  lemma NothingRead(env: Env, req: Begin, out: seq<byte>, wire: seq<byte>)
    requires wire != [] ==> wire[0] != VERSION_1
    ensures var p := Run(env, NO_FRAME, req, out, wire); p.bytes == [] && p.end.Fault?
  {
    if |wire| < HEADER_LEN {
      TooShort(env, false, req, out, wire);
    } else {
      PaddingIsReadAsHeader(env, req, out, wire, []);
      assert wire + [] == wire;
    }
  }

  /** Bytes cut behind the header of an empty record. */
  lemma CutInPadding(all: seq<byte>, end: Record, n: nat) returns (tail: seq<byte>)
    requires ValidRecord(end) && end.content == [] && |all| + HEADER_LEN <= n <= |all + Encode(end)|
    ensures (all + Encode(end))[..n] == all + (Head(end) + tail)
  {
    tail := end.padding[..n - |all| - HEADER_LEN];
    assert Encode(end) == Head(end) + end.padding;
    hide Encode, Head;
    assert (all + (Head(end) + end.padding))[..n] == all + (Head(end) + tail);
  }

  /** The input of a request of which `n` bytes arrive. */
  lemma InputCutShort(env: Env, req: Begin, out: seq<byte>, padding: seq<byte>, ss: seq<Record>, end: Record, n: nat)
    requires AllAcceptable(STDIN, req, ss, false) && ValidRecords(ss) && Ending(STDIN, req, end) && env.kind == STDIN
    requires Accepts(env.limit, out, |Replies(STDIN, req, ss, false)|) && NotAHeader(padding)
    requires n <= |padding + (EncodeAll(ss) + Encode(end))|
    ensures var input := Run(env, NO_FRAME, req, out, (padding + (EncodeAll(ss) + Encode(end)))[..n]);
      && (padding != [] ==> input.bytes == [] && input.end.Fault?)
      && (padding == [] ==> input.bytes == DeliveredBy(STDIN, req, ss, false, n))
      && (padding == [] ==> (input.end == Eof <==> |EncodeAll(ss)| + HEADER_LEN <= n))
  {
    hide Run, DeliveredBy, AllAcceptable, EncodeAll, Accepts, Replies;
    var all := EncodeAll(ss);
    var wire := padding + (all + Encode(end));
    if padding != [] {
      NothingRead(env, req, out, wire[..n]);
    } else {
      assert wire == all + Encode(end);
      if n < |all| + HEADER_LEN {
        hide Encode;
        StreamCutShort(env, req, ss, out, end, n);
      } else {
        var tail := CutInPadding(all, end, n);
        hide Encode;
        ReadStream(env, req, ss, false, out, end, tail);
        DeliveredByAll(STDIN, req, ss, false, n);
      }
    }
  }

  /** A request from behind its opening, of which `n` bytes arrive. */
  lemma RestCutShort(env: Env, role: seq<byte>, info: Begin, out: seq<byte>, padding: seq<byte>,
                     ps: seq<Record>, psEnd: Record, input: seq<byte>, n: nat)
    requires AllAcceptable(PARAMS, info, ps, false) && ValidRecords(ps) && Ending(PARAMS, info, psEnd)
    requires Accepts(env.limit, out, |Replies(PARAMS, info, ps, false)|) && NotAHeader(padding)
    requires n <= |padding + (EncodeAll(ps) + Encode(psEnd) + input)|
    ensures var a := EnvironmentRead(env, [role], info, out, (padding + (EncodeAll(ps) + Encode(psEnd) + input))[..n]);
      var got := ParsePairs(DeliveredBy(PARAMS, info, ps, false, n));
      var i := n - |EncodeAll(ps)| - HEADER_LEN;
      && (padding != [] ==> a == BrokenOff([role]))
      && (padding == [] && i < 0 ==> a == Broken([role], got))
      && (padding == [] && i >= 0 ==>
            && i <= |psEnd.padding + input|
            && a == Whole([role], got, info, (psEnd.padding + input)[..i], out + Replies(PARAMS, info, ps, false)))
  {
    hide Run, ParsePairs, Encode, EncodeAll, Replies, Delivered, DeliveredBy, AllAcceptable, Head;
    var all := EncodeAll(ps);
    var wire := padding + (all + Encode(psEnd) + input);
    if padding != [] {
      NothingRead(env.(kind := PARAMS), info, out, wire[..n]);
      NothingParsed(role);
    } else {
      assert wire == all + Encode(psEnd) + input;
      StreamCut(all, psEnd, input, n);
      if n < |all| + HEADER_LEN {
        EnvironmentCutShort(env, [role], info, out, ps, psEnd, n);
      } else {
        EnvironmentIsWhole(env, [role], info, out, ps, psEnd, (psEnd.padding + input)[..n - |all| - HEADER_LEN]);
        DeliveredByAll(PARAMS, info, ps, false, n);
      }
    }
  }

  lemma NothingParsed(role: seq<byte>)
    ensures ParsePairs([]) == Parsed([], Between) && [role] + [] == [role]
  {
  }

  /** How many bytes of a request open it. */
  function OpeningSize(before: seq<Record>): nat
    requires ValidRecords(before)
  {
    |EncodeAll(before)| + HEADER_LEN + 8
  }

  lemma WireCut(before: seq<Record>, opening: Record, rest: seq<byte>, n: nat)
    requires ValidRecords(before) && Opening(opening) && n <= |EncodeAll(before) + (Encode(opening) + rest)|
    ensures var all, lead, tail := EncodeAll(before), Head(opening) + opening.content, opening.padding + rest;
      var wire := EncodeAll(before) + (Encode(opening) + rest);
      && |all + lead| == OpeningSize(before) && |wire| == OpeningSize(before) + |tail|
      && (n < OpeningSize(before) ==> wire[..n] == (all + lead)[..n])
      && (n >= OpeningSize(before) ==>
            wire[..n] == all + (Head(opening) + (opening.content + tail[..n - OpeningSize(before)])))
  {
    OpeningApart(opening, rest);
    hide Encode, EncodeAll, RoleEntry, Head;
  }

  /** A request of which `n` bytes arrive: what is reported, the parameters and the input. Nothing is reported as a
    * success before the request has begun; from there on everything that decodes is, until the parameters have ended.
    */
  lemma RequestCutShort(env: Env, req: Begin, out: seq<byte>, before: seq<Record>, opening: Record,
                        ps: seq<Record>, psEnd: Record, ss: seq<Record>, ssEnd: Record, n: nat)
    requires WellFormed(req, before, opening, ps, psEnd, ss, ssEnd)
    requires ValidRecords(before) && ValidRecords(ps) && ValidRecords(ss)
    requires env.kind == 0 && Accepts(env.limit, out, |AllReplies(req, before, Announced(opening), ps, ss)|)
    requires n <= |Wire(before, opening, ps, psEnd, ss, ssEnd)|
    ensures var info := Announced(opening);
      var a := Accepting(env, req, out, Wire(before, opening, ps, psEnd, ss, ssEnd)[..n]);
      var role := RoleEntry(info.role).value;
      var arrived := n - OpeningSize(before);
      var begins := arrived >= 0 && Opens(req, before);
      && (!begins ==> a == Refused)
      && (begins && opening.padding != [] ==> a == BrokenOff([role]))
      && (begins && opening.padding == [] ==>
            var got := ParsePairs(DeliveredBy(PARAMS, info, ps, false, arrived));
            var i := arrived - |EncodeAll(ps)| - HEADER_LEN;
            if i < 0 then a == Broken([role], got)
            else
              && (a.Accepted? <==> got.Ok()) && (a == Overflowed <==> got.end == Overflow) &&
                  (a == Refused <==> got.end == Inside)
              && (a.Accepted? ==>
                    && a.req == info && a.entries == [role] + got.entries
                    && var input := Run(env.(kind := STDIN), NO_FRAME, info, a.out, a.rest);
                       && (psEnd.padding != [] ==> input.bytes == [] && input.end.Fault?)
                       && (psEnd.padding == [] ==> input.bytes == DeliveredBy(STDIN, info, ss, false, i))
                       && (psEnd.padding == [] ==> (input.end == Eof <==> |EncodeAll(ss)| + HEADER_LEN <= i))))
  {
    hide Run, EnvironmentRead, RoleEntry, Opens, ParsePairs, Replies, Delivered, DeliveredBy, AllAcceptable, Encode,
        EncodeAll;
    hide Head;
    var info := Announced(opening);
    var input := EncodeAll(ss) + Encode(ssEnd);
    var environment := EncodeAll(ps) + Encode(psEnd) + input;
    var size := OpeningSize(before);
    WireCut(before, opening, environment, n);
    if n < size {
      OpeningCutShort(env, req, out, before, opening, n);
    } else {
      OpeningIsRead(env, req, out, before, opening, (opening.padding + environment)[..n - size]);
      if Opens(req, before) {
        var after := out + Replies(0, req, before, false);
        RestCutShort(env, RoleEntry(info.role).value, info, after, opening.padding, ps, psEnd, input, n - size);
        var i := n - size - |EncodeAll(ps)| - HEADER_LEN;
        if opening.padding == [] && i >= 0 {
          InputCutShort(env.(kind := STDIN), info, after + Replies(PARAMS, info, ps, false), psEnd.padding, ss, ssEnd,
                        i);
        }
      }
    }
  }
}
