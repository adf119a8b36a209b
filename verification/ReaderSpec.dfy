/** The meaning of a FastCGI input stream, independent of buffers and of how the bytes
  * arrive: from a position in the byte stream, which bytes the client is going to be given,
  * how that ends, and what the library answers on the connection meanwhile.
  */
module ReaderSpec {
  import opened Basics
  import opened FcgiProtocol
  import opened FcgiConnection
  import opened NameValue

  const UNSUPPORTED_VERSION := -2
  const PROTOCOL_ERROR := -3
  const PARAMS_ERROR := -4
  /** Where the C code runs into undefined behaviour the model ends the stream with this. */
  const UNDEFINED := -100

  /** What a stream type, a connection and its error codes contribute; constant over a run. */
  datatype Env = Env(kind: byte, readFault: int, limit: Option<nat>, writeFault: int)

  /** The unread remainder of the current record. */
  datatype Frame = Frame(content: nat, padding: nat, skip: bool)

  datatype End = Eof | Begun | Fault(code: int)

  /** What is still to come: the bytes, the end, and the state of affairs at the end. */
  datatype Pending = Pending(bytes: seq<byte>, end: End, rest: seq<byte>, out: seq<byte>, req: Begin, frame: Frame)
  {
    function Drop(n: nat): Pending
      requires n <= |bytes|
    {
      this.(bytes := bytes[n..])
    }

    /** The next thing to come is the end of a BEGIN_REQUEST record. */
    predicate Begins() {
      bytes == [] && end == Begun
    }
  }

  const NO_FRAME := Frame(0, 0, false)

  function Failed(bytes: seq<byte>, code: int, out: seq<byte>): Pending {
    Pending(bytes, Fault(code), [], out, Begin(0, 0, false, false), NO_FRAME)
  }

  function Prepend(bytes: seq<byte>, p: Pending): Pending {
    p.(bytes := bytes + p.bytes)
  }

  /** The rest of one record, for a client that must not see past its end (`eorStop`). */
  function Tail(env: Env, f: Frame, req: Begin, out: seq<byte>, rest: seq<byte>): Pending {
    if rest == [] then Failed([], env.readFault, out)
    else if 0 < f.content && !f.skip then
      if |rest| <= f.content then Failed(rest, env.readFault, out)
      else Prepend(rest[..f.content], TailEnd(env, f.padding, false, req, out, rest[f.content..]))
    else if 0 < f.content then
      if |rest| < f.content then Failed([], env.readFault, out)
      else TailEnd(env, f.padding, false, req, out, rest[f.content..])
    else TailEnd(env, f.padding, f.skip, req, out, rest)
  }

  function TailEnd(env: Env, padding: nat, skip: bool, req: Begin, out: seq<byte>, rest: seq<byte>): Pending {
    if |rest| < padding then Failed([], env.readFault, out)
    else Pending([], Eof, rest[padding..], out, req, Frame(0, 0, skip))
  }

  /** The stream from inside a record on. */
  function Run(env: Env, f: Frame, req: Begin, out: seq<byte>, rest: seq<byte>): Pending
    decreases |rest|, 2
  {
    if rest == [] then Failed([], env.readFault, out)
    else if 0 < f.content && !f.skip then
      var n := if f.content < |rest| then f.content else |rest|;
      Prepend(rest[..n], Run(env, f.(content := f.content - n), req, out, rest[n..]))
    else if 0 < f.content then
      if |rest| < f.content then Failed([], env.readFault, out)
      else Boundary(env, f.padding, false, req, out, rest[f.content..])
    else Boundary(env, f.padding, f.skip, req, out, rest)
  }

  /** The stream from the end of a record's content on. */
  function Boundary(env: Env, padding: nat, skip: bool, req: Begin, out: seq<byte>, rest: seq<byte>): Pending
    decreases |rest|, 1
  {
    if |rest| < padding + HEADER_LEN then Failed([], env.readFault, out)
    else
      Dispatch(env, rest[padding..padding + HEADER_LEN], skip, req, out, rest[padding + HEADER_LEN..])
  }

  function FrameOf(h: seq<byte>, skip: bool): Frame
    requires |h| == HEADER_LEN
  {
    Frame(HeaderContentLength(h), h[6], skip)
  }

  /** The stream after a header. */
  function Dispatch(env: Env, h: seq<byte>, skip: bool, req: Begin, out: seq<byte>, rest: seq<byte>): Pending
    requires |h| == HEADER_LEN
    decreases |rest|, 5
  {
    var id := HeaderId(h);
    var f := FrameOf(h, skip);
    if h[0] != VERSION_1 then Failed([], UNSUPPORTED_VERSION, out)
    else if h[1] == BEGIN_REQUEST then
      if id == 0 || f.content != 8 then Failed([], PROTOCOL_ERROR, out)
      else if req.begun then Answer(env, CantMultiplex(id), f.(skip := true), req, out, rest)
      else BeginBody(env, f, id, req, out, rest)
    else if id == NULL_REQUEST_ID then Manage(env, h[1], f, req, out, rest)
    else if id != req.id then Run(env, f.(skip := true), req, out, rest)
    else if h[1] != env.kind then Failed([], PROTOCOL_ERROR, out)
    else if f.content == 0 then Pending([], Eof, rest, out, req, f)
    else Run(env, f, req, out, rest)
  }

  /** The stream after the header of a management record. Only GET_VALUES has its content read. */
  function Manage(env: Env, kind: byte, f: Frame, req: Begin, out: seq<byte>, rest: seq<byte>): Pending
    decreases |rest|, 4
  {
    if kind == GET_VALUES then
      var t := Tail(env, f, req, out, rest);
      var parsed := ParsePairs(t.bytes);
      if parsed.end == Overflow then Failed([], UNDEFINED, out)
      else if t.end.Fault? then Failed([], t.end.code, out)
      else if !parsed.Ok() then Failed([], PARAMS_ERROR, out)
      else
        match GetValuesResult(parsed.entries)
        case None => Failed([], UNDEFINED, out)
        case Some(reply) => Answer(env, reply, t.frame, req, out, t.rest)
    else Answer(env, Encode(UnknownTypeRecord(kind)), f, req, out, rest)
  }

  /** Write a reply and go on, or fail with the error of the write. */
  function Answer(env: Env, reply: seq<byte>, f: Frame, req: Begin, out: seq<byte>, rest: seq<byte>): Pending
    decreases |rest|, 3
  {
    if Accepts(env.limit, out, |reply|) then Run(env, f, req, out + reply, rest)
    else Failed([], env.writeFault, PartlyWritten(env.limit, out, reply))
  }

  function PartlyWritten(limit: Option<nat>, out: seq<byte>, bytes: seq<byte>): seq<byte> {
    if Accepts(limit, out, 0) then Written(limit, out, bytes) else out
  }

  function CantMultiplex(id: uint16): seq<byte> {
    Encode(EndRequestRecord(id, 0, CANT_MPX_CONN))
  }

  function BeginBody(env: Env, f: Frame, id: uint16, req: Begin, out: seq<byte>, rest: seq<byte>): Pending
    requires f.content == 8
  {
    var t := Tail(env, f, req, out, rest);
    if |rest| < 8 then Failed([], env.readFault, out)
    else if f.skip then Failed([], if t.end.Fault? then t.end.code else PROTOCOL_ERROR, out)
    else
      Pending([], Begun, rest[8..], out,
              Begin(id, rest[0] as int * 0x100 + rest[1] as int, rest[2] % 2 == 1, true), Frame(0, f.padding, false))
  }

  // ------------------------------------------------------------------ GET_VALUES

  function Ascii(s: string): (bs: seq<byte>)
    ensures |bs| == |s|
  {
    seq(|s|, i requires 0 <= i < |s| => s[i] as int % 0x100)
  }

  const RESPONSE_ROOM: nat := 55

  /** The reply value of a variable, as an ASCII digit. */
  function VariableValue(name: seq<byte>): Option<byte> {
    if name == Ascii("FCGI_MAX_CONNS") then Some(49)
    else if name == Ascii("FCGI_MAX_REQS") then Some(49)
    else if name == Ascii("FCGI_MPXS_CONNS") then Some(48)
    else None
  }

  /** The C string before the first `=`; there is none when a NUL comes first. */
  function NameOf(entry: seq<byte>): (r: Option<seq<byte>>)
    ensures r.Some? ==> |r.value| < |entry| && r.value == entry[..|r.value|] && entry[|r.value|] == EQUALS
  {
    if entry == [] || entry[0] == 0 then None
    else if entry[0] == EQUALS then Some([])
    else
      match NameOf(entry[1..])
      case None => None
      case Some(n) => Some([entry[0]] + n)
  }

  function ValueReply(name: seq<byte>): (r: seq<byte>)
    ensures |r| <= 18
  {
    match VariableValue(name)
    case None => []
    case Some(v) => [|name|, 1] + name + [v]
  }

  /** The content of the reply, unless a name is not a C string. */
  function ValueReplies(entries: seq<seq<byte>>): Option<seq<byte>> {
    if entries == [] then Some([])
    else
      var last := |entries| - 1;
      match (ValueReplies(entries[..last]), NameOf(entries[last]))
      case (Some(before), Some(name)) => Some(before + ValueReply(name))
      case _ => None
  }

  /** The record of a reply. */
  function ReplyRecord(content: seq<byte>): (r: Record)
    requires |content| <= RESPONSE_ROOM
    ensures ValidRecord(r)
  {
    Record(GET_VALUES_RESULT, NULL_REQUEST_ID, content, Zeros(AlignInt8(|content|) - |content|), 0)
  }

  /** The GET_VALUES_RESULT record, unless the 64-byte response buffer overflows. */
  function GetValuesResult(entries: seq<seq<byte>>): Option<seq<byte>> {
    match ValueReplies(entries)
    case None => None
    case Some(content) =>
      if |content| > RESPONSE_ROOM then None
      else Some(Encode(ReplyRecord(content)))
  }

  /** How many of the entries ask for a variable. */
  function Asked(entries: seq<seq<byte>>, name: seq<byte>): nat {
    if entries == [] then 0
    else Asked(entries[..|entries| - 1], name) + if NameOf(entries[|entries| - 1]) == Some(name) then 1 else 0
  }

  /** The length of the reply content: the names have 14, 13 and 15 characters. */
  function ReplySize(entries: seq<seq<byte>>): nat {
    17 * Asked(entries, Ascii("FCGI_MAX_CONNS")) + 16 * Asked(entries, Ascii("FCGI_MAX_REQS"))
      + 18 * Asked(entries, Ascii("FCGI_MPXS_CONNS"))
  }

  predicate AllNamed(entries: seq<seq<byte>>) {
    forall e :: e in entries ==> NameOf(e).Some?
  }

  /** The requests for values that the library can answer. */
  predicate Answerable(entries: seq<seq<byte>>) {
    AllNamed(entries) && ReplySize(entries) <= RESPONSE_ROOM
  }

  lemma VariablesDiffer()
    ensures Ascii("FCGI_MAX_CONNS") != Ascii("FCGI_MAX_REQS") && Ascii("FCGI_MAX_REQS") != Ascii("FCGI_MPXS_CONNS")
    ensures Ascii("FCGI_MPXS_CONNS") != Ascii("FCGI_MAX_CONNS")
  {
    assert |Ascii("FCGI_MAX_CONNS")| == 14 && |Ascii("FCGI_MAX_REQS")| == 13 && |Ascii("FCGI_MPXS_CONNS")| == 15;
  }

  lemma {:induction false} RepliesMeasured(entries: seq<seq<byte>>)
    ensures ValueReplies(entries).Some? <==> AllNamed(entries)
    ensures ValueReplies(entries).Some? ==> |ValueReplies(entries).value| == ReplySize(entries)
  {
    if entries != [] {
      var before, last := entries[..|entries| - 1], entries[|entries| - 1];
      assert entries == before + [last];
      RepliesMeasured(before);
      VariablesDiffer();
      hide Ascii, NameOf;
    }
  }

  /** A request for values is answered exactly when every name is a C string and the replies to the three variables,
    * repetitions counted, take up no more than 55 bytes; otherwise the C code leaves its buffer or follows a null
    * pointer. Other names cost nothing.
    */
  lemma AnsweredExactly(entries: seq<seq<byte>>)
    ensures GetValuesResult(entries).Some? <==> Answerable(entries)
    ensures Answerable(entries) <==>
      && (forall i :: 0 <= i < |entries| ==> NameOf(entries[i]).Some?)
      && 17 * Asked(entries, Ascii("FCGI_MAX_CONNS")) + 16 * Asked(entries, Ascii("FCGI_MAX_REQS"))
         + 18 * Asked(entries, Ascii("FCGI_MPXS_CONNS")) <= 55
  {
    RepliesMeasured(entries);
  }

  lemma {:induction false} NameOfJoined(p: Pair)
    requires EQUALS !in p.name
    ensures NameOf(Joined(p)) == if 0 in p.name then None else Some(p.name)
    decreases |p.name|
  {
    if p.name != [] {
      var rest := Pair(p.name[1..], p.value);
      assert Joined(p)[1..] == Joined(rest);
      assert p.name == [p.name[0]] + rest.name;
      NameOfJoined(rest);
    }
  }

  lemma {:induction false} AskedAtMostOnce(entries: seq<seq<byte>>, name: seq<byte>)
    requires forall i, j :: 0 <= i < j < |entries| ==> NameOf(entries[i]) != NameOf(entries[j])
    ensures Asked(entries, name) <= 1
    ensures (forall e :: e in entries ==> NameOf(e) != Some(name)) ==> Asked(entries, name) == 0
  {
    hide NameOf;
    if entries != [] {
      AskedAtMostOnce(entries[..|entries| - 1], name);
    }
  }

  lemma NamesOfEntries(cs: seq<CodedPair>)
    requires forall c :: c in cs ==> EQUALS !in c.pair.name && 0 !in c.pair.name
    ensures forall i :: 0 <= i < |cs| ==> NameOf(Entries(cs)[i]) == Some(cs[i].pair.name)
  {
    hide NameOf, Joined;
    forall i | 0 <= i < |cs|
      ensures NameOf(Entries(cs)[i]) == Some(cs[i].pair.name)
    {
      assert cs[i] in cs;
      NameOfJoined(cs[i].pair);
    }
  }

  lemma OnceEach(entries: seq<seq<byte>>)
    requires forall i :: 0 <= i < |entries| ==> NameOf(entries[i]).Some?
    requires Asked(entries, Ascii("FCGI_MAX_CONNS")) <= 1 && Asked(entries, Ascii("FCGI_MAX_REQS")) <= 1
    requires Asked(entries, Ascii("FCGI_MPXS_CONNS")) <= 1
    ensures Answerable(entries)
  {
    hide NameOf, Asked, Ascii;
  }

  /** A sender that names no variable twice is always answered. */
  lemma DistinctNamesAnswered(cs: seq<CodedPair>)
    requires forall c :: c in cs ==> EQUALS !in c.pair.name && 0 !in c.pair.name
    requires forall i, j :: 0 <= i < j < |cs| ==> cs[i].pair.name != cs[j].pair.name
    ensures Answerable(Entries(cs))
  {
    hide NameOf, Asked, Entries, Joined, Ascii, Answerable;
    var entries := Entries(cs);
    NamesOfEntries(cs);
    AskedAtMostOnce(entries, Ascii("FCGI_MAX_CONNS"));
    AskedAtMostOnce(entries, Ascii("FCGI_MAX_REQS"));
    AskedAtMostOnce(entries, Ascii("FCGI_MPXS_CONNS"));
    OnceEach(entries);
  }

  lemma {:induction false} AskedOf(entries: seq<seq<byte>>, name: seq<byte>, e: seq<byte>)
    requires forall i :: 0 <= i < |entries| ==> entries[i] == e
    ensures Asked(entries, name) == if NameOf(e) == Some(name) then |entries| else 0
  {
    hide NameOf;
    if entries != [] {
      AskedOf(entries[..|entries| - 1], name, e);
    }
  }

  /** Asking four times for one variable is more than the buffer holds. */
  lemma FourTimesTooMany(value: seq<byte>)
    ensures var e := Joined(Pair(Ascii("FCGI_MAX_REQS"), value));
            GetValuesResult([e]).Some? && GetValuesResult([e, e, e, e]) == None
  {
    var e := Joined(Pair(Ascii("FCGI_MAX_REQS"), value));
    NameOfJoined(Pair(Ascii("FCGI_MAX_REQS"), value));
    VariablesDiffer();
    hide NameOf, Ascii;
    AskedOf([e], Ascii("FCGI_MAX_CONNS"), e);
    AskedOf([e], Ascii("FCGI_MPXS_CONNS"), e);
    AskedOf([e], Ascii("FCGI_MAX_REQS"), e);
    AskedOf([e, e, e, e], Ascii("FCGI_MAX_REQS"), e);
    AnsweredExactly([e]);
    AnsweredExactly([e, e, e, e]);
  }

  // ------------------------------------------------------------------ what the replies say

  lemma AsciiCodes(s: string, i: nat)
    requires i < |s| && s[i] as int < 128
    ensures Ascii(s)[i] == s[i] as int
  {
  }

  /** What a server that asks for one name is told. */
  function ToldOf(name: seq<byte>): seq<seq<byte>> {
    if name == Ascii("FCGI_MAX_CONNS") then [Ascii("FCGI_MAX_CONNS=1")]
    else if name == Ascii("FCGI_MAX_REQS") then [Ascii("FCGI_MAX_REQS=1")]
    else if name == Ascii("FCGI_MPXS_CONNS") then [Ascii("FCGI_MPXS_CONNS=0")]
    else []
  }

  /** What it is told when it asks for `entries`: once for each time it asks, in order. */
  function Told(entries: seq<seq<byte>>): seq<seq<byte>> {
    if entries == [] then []
    else
      Told(entries[..|entries| - 1]) +
      match NameOf(entries[|entries| - 1])
      case None => []
      case Some(name) => ToldOf(name)
  }

  /** The pairs of a reply to one name. */
  function PairsFor(name: seq<byte>): seq<CodedPair> {
    match VariableValue(name)
    case None => []
    case Some(v) => [CodedPair(Pair(name, [v]), false, false)]
  }

  lemma ToldOne(name: seq<byte>)
    ensures ValidCodedPairs(PairsFor(name)) && AllAllocatable(PairsFor(name))
    ensures EncodePairs(PairsFor(name)) == ValueReply(name)
    ensures Entries(PairsFor(name)) == ToldOf(name)
  {
    VariablesDiffer();
    assert Ascii("FCGI_MAX_CONNS=1") == Ascii("FCGI_MAX_CONNS") + [61, 49];
    assert Ascii("FCGI_MAX_REQS=1") == Ascii("FCGI_MAX_REQS") + [61, 49];
    assert Ascii("FCGI_MPXS_CONNS=0") == Ascii("FCGI_MPXS_CONNS") + [61, 48];
    if VariableValue(name).Some? {
      assert |name| <= 15;
      hide Ascii, Entries, EncodePairs, ValidCodedPairs, AllAllocatable;
      OnePair(name, VariableValue(name).value);
    }
  }

  /** One pair by itself, with a value of one byte. */
  lemma OnePair(name: seq<byte>, v: byte)
    requires |name| < 128
    ensures var cs := [CodedPair(Pair(name, [v]), false, false)];
      && ValidCodedPairs(cs) && AllAllocatable(cs)
      && EncodePairs(cs) == [|name|] + [1] + name + [v] && Entries(cs) == [name + [61, v]]
  {
    var c := CodedPair(Pair(name, [v]), false, false);
    assert EncodePairs([]) == [] && [c][1..] == [];
    assert EncodePair(c) == [|name|] + [1] + name + [v];
    assert EncodePair(c) + [] == EncodePair(c);
    assert Joined(c.pair) == name + [61, v];
  }

  lemma ToldNext(entries: seq<seq<byte>>, name: seq<byte>)
    requires entries != [] && NameOf(entries[|entries| - 1]) == Some(name)
    ensures Told(entries) == Told(entries[..|entries| - 1]) + Entries(PairsFor(name))
    ensures ValidCodedPairs(PairsFor(name)) && AllAllocatable(PairsFor(name))
    ensures ValueReplies(entries[..|entries| - 1]).Some? ==>
      ValueReplies(entries) == Some(ValueReplies(entries[..|entries| - 1]).value + EncodePairs(PairsFor(name)))
  {
    hide Ascii, NameOf, ValueReply, PairsFor, ToldOf, ValidCodedPairs, AllAllocatable, Entries, EncodePairs;
    ToldOne(name);
  }

  lemma {:induction false} ToldAll(entries: seq<seq<byte>>) returns (cs: seq<CodedPair>)
    requires forall i :: 0 <= i < |entries| ==> NameOf(entries[i]).Some?
    ensures ValidCodedPairs(cs) && AllAllocatable(cs) && Entries(cs) == Told(entries)
    ensures ValueReplies(entries) == Some(EncodePairs(cs))
  {
    hide NameOf, PairsFor, ValidCoded, Allocatable;
    if entries == [] {
      cs := [];
    } else {
      hide Told, ValueReplies, Entries, EncodePairs;
      var first := ToldAll(entries[..|entries| - 1]);
      var name := NameOf(entries[|entries| - 1]).value;
      ToldNext(entries, name);
      EncodePairsAppend(first, PairsFor(name));
      cs := first + PairsFor(name);
    }
  }

  lemma OneRecord(r: Record)
    requires ValidRecord(r)
    ensures Parse(Encode(r)) == Some([r])
  {
    EncodeOne(r);
    ParseEncode([r]);
    hide Parse;
  }

  /** A server that asks for values is sent one record of type 10 for no request, with a length that is a multiple of
    * eight, and reads in it what it is told.
    */
  lemma ReplySays(entries: seq<seq<byte>>)
    requires Answerable(entries)
    ensures GetValuesResult(entries).Some?
    ensures var reply := GetValuesResult(entries).value;
      && |reply| % 8 == 0 && Parse(reply).Some? && |Parse(reply).value| == 1
      && var r := Parse(reply).value[0];
         && r.kind == 10 && r.id == 0 && r.reserved == 0 && (forall i :: 0 <= i < |r.padding| ==> r.padding[i] == 0)
         && ParsePairs(r.content) == Parsed(Told(entries), Between)
  {
    AnsweredExactly(entries);
    assert forall i :: 0 <= i < |entries| ==> NameOf(entries[i]).Some?;
    hide ParsePairs, EncodePairs, ValueReplies, GetValuesResult, Parse, Told, Answerable, Asked, NameOf, Ascii;
    var cs := ToldAll(entries);
    ParseEncodedPairs(cs);
    OneReplyRecord(entries, EncodePairs(cs));
  }

  lemma ReplyEncoded(entries: seq<seq<byte>>, content: seq<byte>)
    requires ValueReplies(entries) == Some(content) && GetValuesResult(entries).Some?
    ensures |content| <= RESPONSE_ROOM && GetValuesResult(entries).value == Encode(ReplyRecord(content))
  {
  }

  lemma ReplyAligned(content: seq<byte>)
    requires |content| <= RESPONSE_ROOM
    ensures |Encode(ReplyRecord(content))| % 8 == 0
  {
  }

  lemma OneReplyRecord(entries: seq<seq<byte>>, content: seq<byte>)
    requires ValueReplies(entries) == Some(content) && GetValuesResult(entries).Some?
    ensures var reply := GetValuesResult(entries).value;
      && |reply| % 8 == 0 && Parse(reply).Some? && |Parse(reply).value| == 1
      && var r := Parse(reply).value[0];
         && r.kind == 10 && r.id == 0 && r.content == content
         && r.reserved == 0 && forall i :: 0 <= i < |r.padding| ==> r.padding[i] == 0
  {
    hide ValueReplies, GetValuesResult, Parse, Encode, AlignInt8, Zeros;
    ReplyEncoded(entries, content);
    ReplyAligned(content);
    OneRecord(ReplyRecord(content));
  }

  /** A server whose management record is not known is sent one record of type 11 for no request, whose content begins
    * with the type it used.
    */
  lemma UnknownReplySays(kind: byte)
    ensures var reply := Encode(UnknownTypeRecord(kind));
      && Parse(reply).Some? && |Parse(reply).value| == 1
      && Parse(reply).value[0] == Record(11, 0, [kind, 0, 0, 0, 0, 0, 0, 0], [], 0)
  {
    OneRecord(UnknownTypeRecord(kind));
    hide Parse;
  }

  /** A request that comes while one is active is ended at once, with status 1, which says that requests cannot be
    * multiplexed on the connection.
    */
  lemma RefusalSays(id: uint16)
    ensures var reply := CantMultiplex(id);
      && Parse(reply).Some? && |Parse(reply).value| == 1
      && Parse(reply).value[0] == Record(3, id, [0, 0, 0, 0, 1, 0, 0, 0], [], 0)
  {
    OneRecord(EndRequestRecord(id, 0, CANT_MPX_CONN));
    hide Parse;
  }

  /** The error codes that `fcgiapp.h` numbers. */
  lemma ErrorCodes()
    ensures UNSUPPORTED_VERSION == -2 && PROTOCOL_ERROR == -3 && PARAMS_ERROR == -4
  {
  }

  // ------------------------------------------- how a position moves as bytes are consumed

  /** Handing over any part of the available content leaves the rest of the stream. */
  lemma RunDelivers(env: Env, f: Frame, req: Begin, out: seq<byte>, rest: seq<byte>, n: nat)
    requires !f.skip && n <= f.content && n <= |rest|
    ensures Run(env, f, req, out, rest)
        == Prepend(rest[..n], Run(env, f.(content := f.content - n), req, out, rest[n..]))
  {
    var all := if f.content < |rest| then f.content else |rest|;
    var end := Run(env, f.(content := f.content - all), req, out, rest[all..]);
    SplitPrefix(rest, n, all, end.bytes);
    hide Boundary;
  }

  lemma SplitPrefix(rest: seq<byte>, n: nat, m: nat, tail: seq<byte>)
    requires n <= m <= |rest|
    ensures rest[..n] + (rest[n..][..m - n] + tail) == rest[..m] + tail
    ensures rest[n..][m - n..] == rest[m..]
    ensures n == 0 ==> rest[n..] == rest && rest[..n] + (rest[..m] + tail) == rest[..m] + tail
  {
  }

  lemma TailDelivers(env: Env, f: Frame, req: Begin, out: seq<byte>, rest: seq<byte>, n: nat)
    requires !f.skip && n <= f.content && n <= |rest|
    ensures Tail(env, f, req, out, rest)
        == Prepend(rest[..n], Tail(env, f.(content := f.content - n), req, out, rest[n..]))
  {
    var g := f.(content := f.content - n);
    if n == 0 {
      assert rest[n..] == rest;
    } else if |rest| <= f.content {
      assert rest == rest[..n] + rest[n..];
    } else {
      assert rest[n..][g.content..] == rest[f.content..];
      assert rest[n..][..g.content] == rest[n..f.content];
      assert rest[..f.content] == rest[..n] + rest[n..f.content];
      if n == f.content {
        assert rest[n..][0..] == rest[n..];
      }
    }
  }

  /** Passing over content that is skipped, but not to its end. */
  lemma RunSkips(env: Env, f: Frame, req: Begin, out: seq<byte>, rest: seq<byte>, n: nat)
    requires f.skip && n < f.content && n <= |rest|
    ensures Run(env, f, req, out, rest) == Run(env, f.(content := f.content - n), req, out, rest[n..])
    ensures Tail(env, f, req, out, rest) == Tail(env, f.(content := f.content - n), req, out, rest[n..])
  {
    if f.content <= |rest| {
      assert rest[n..][f.content - n..] == rest[f.content..];
    }
  }

  /** Passing over padding. */
  lemma BoundaryPads(env: Env, padding: nat, skip: bool, req: Begin, out: seq<byte>, rest: seq<byte>, n: nat)
    requires n <= padding && n <= |rest|
    ensures Boundary(env, padding, skip, req, out, rest) == Boundary(env, padding - n, skip, req, out, rest[n..])
    ensures TailEnd(env, padding, skip, req, out, rest) == TailEnd(env, padding - n, skip, req, out, rest[n..])
  {
    if padding <= |rest| {
      assert rest[n..][padding - n..] == rest[padding..];
      if padding + HEADER_LEN <= |rest| {
        assert rest[n..][padding - n..padding - n + HEADER_LEN] == rest[padding..padding + HEADER_LEN];
        assert rest[n..][padding - n + HEADER_LEN..] == rest[padding + HEADER_LEN..];
      }
    }
  }

  /** At a record boundary the loop may find itself at its head again. */
  lemma RunAtBoundary(env: Env, f: Frame, req: Begin, out: seq<byte>, rest: seq<byte>)
    requires f.content == 0
    ensures Run(env, f, req, out, rest) == Boundary(env, f.padding, f.skip, req, out, rest)
  {
  }

  lemma BoundaryDispatches(env: Env, skip: bool, req: Begin, out: seq<byte>, h: seq<byte>, rest: seq<byte>)
    requires |h| == HEADER_LEN
    ensures Boundary(env, 0, skip, req, out, h + rest) == Dispatch(env, h, skip, req, out, rest)
  {
    assert (h + rest)[0..HEADER_LEN] == h;
    assert (h + rest)[HEADER_LEN..] == rest;
  }

  lemma TailShrinks(env: Env, f: Frame, req: Begin, out: seq<byte>, rest: seq<byte>)
    ensures |Tail(env, f, req, out, rest).rest| <= |rest|
  {
  }

  /** Once a request has begun the stream ends in end-of-file or a fault, and the request
    * stays as it is.
    */
  lemma {:induction false} RunStaysBegun(env: Env, f: Frame, req: Begin, out: seq<byte>, rest: seq<byte>)
    requires req.begun
    ensures var p := Run(env, f, req, out, rest); !p.end.Begun? && (p.end.Eof? ==> p.req == req)
    decreases |rest|, 2
  {
    if rest == [] {
    } else if 0 < f.content && !f.skip {
      var n := if f.content < |rest| then f.content else |rest|;
      RunStaysBegun(env, f.(content := f.content - n), req, out, rest[n..]);
    } else if 0 < f.content {
      if f.content <= |rest| {
        BoundaryStaysBegun(env, f.padding, false, req, out, rest[f.content..]);
      }
    } else {
      BoundaryStaysBegun(env, f.padding, f.skip, req, out, rest);
    }
  }

  lemma {:induction false} BoundaryStaysBegun(env: Env, padding: nat, skip: bool, req: Begin, out: seq<byte>,
                                              rest: seq<byte>)
    requires req.begun
    ensures var p := Boundary(env, padding, skip, req, out, rest); !p.end.Begun? && (p.end.Eof? ==> p.req == req)
    decreases |rest|, 1
  {
    if padding + HEADER_LEN <= |rest| {
      DispatchStaysBegun(env, rest[padding..padding + HEADER_LEN], skip, req, out, rest[padding + HEADER_LEN..]);
    }
  }

  lemma {:induction false} DispatchStaysBegun(env: Env, h: seq<byte>, skip: bool, req: Begin, out: seq<byte>,
                                              rest: seq<byte>)
    requires |h| == HEADER_LEN && req.begun
    ensures var p := Dispatch(env, h, skip, req, out, rest); !p.end.Begun? && (p.end.Eof? ==> p.req == req)
    decreases |rest|, 5
  {
    var f, id := FrameOf(h, skip), HeaderId(h);
    if h[0] == VERSION_1 {
      if h[1] == BEGIN_REQUEST {
        RunStaysBegun(env, f.(skip := true), req, out + CantMultiplex(id), rest);
      } else if id == NULL_REQUEST_ID {
        ManageStaysBegun(env, h[1], f, req, out, rest);
      } else {
        RunStaysBegun(env, f, req, out, rest);
        RunStaysBegun(env, f.(skip := true), req, out, rest);
      }
    }
  }

  lemma {:induction false} ManageStaysBegun(env: Env, kind: byte, f: Frame, req: Begin, out: seq<byte>, rest: seq<byte>)
    requires req.begun
    ensures var p := Manage(env, kind, f, req, out, rest); !p.end.Begun? && (p.end.Eof? ==> p.req == req)
    decreases |rest|, 4
  {
    hide Run, Tail, ParsePairs, GetValuesResult;
    if kind != GET_VALUES {
      RunStaysBegun(env, f, req, out + Encode(UnknownTypeRecord(kind)), rest);
    } else {
      TailShrinks(env, f, req, out, rest);
      var t := Tail(env, f, req, out, rest);
      var result := GetValuesResult(ParsePairs(t.bytes).entries);
      if result.Some? {
        RunStaysBegun(env, t.frame, req, out + result.value, t.rest);
      }
    }
  }

  lemma ManageOther(env: Env, kind: byte, f: Frame, req: Begin, out: seq<byte>, rest: seq<byte>)
    requires kind != GET_VALUES
    ensures Manage(env, kind, f, req, out, rest) == Answer(env, Encode(UnknownTypeRecord(kind)), f, req, out, rest)
  {
  }

  lemma ManageValues(env: Env, f: Frame, req: Begin, out: seq<byte>, rest: seq<byte>)
    ensures var t, m := Tail(env, f, req, out, rest), Manage(env, GET_VALUES, f, req, out, rest);
            var parsed := ParsePairs(t.bytes);
            && t.out == out && t.req == (if t.end.Fault? then Begin(0, 0, false, false) else req) && !t.end.Begun?
            && (t.end.Eof? ==> t.frame.content == 0 && t.frame.padding == 0)
            && |t.rest| <= |rest|
            && (t.end.Fault? ==> t.end.code == env.readFault)
            && (parsed.end == Overflow ==> m == Failed([], UNDEFINED, out))
            && (t.end.Fault? && parsed.end != Overflow ==> m == Failed([], t.end.code, out))
            && (t.end.Eof? && parsed.end == Inside ==> m == Failed([], PARAMS_ERROR, out))
            && (t.end.Eof? && parsed.Ok() ==>
                  match GetValuesResult(parsed.entries)
                  case None => m == Failed([], UNDEFINED, out)
                  case Some(reply) => m == Answer(env, reply, t.frame, req, out, t.rest))
  {
  }
}
