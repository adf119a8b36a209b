/** Accepting a request on an open connection, and what clients of the input stream see. */
module RequestReading {
  import opened Basics
  import opened FcgiProtocol
  import opened FcgiConnection
  import opened NameValue
  import opened ReaderSpec
  import opened Reader
  import opened ReaderTheorems

  const RESPONDER := 1
  const AUTHORIZER := 2
  const FILTER := 3

  /** The environment entry for a role; other roles are refused. */
  function RoleEntry(role: int): Option<seq<byte>> {
    if role == RESPONDER then Some(Ascii("FCGI_ROLE=RESPONDER"))
    else if role == AUTHORIZER then Some(Ascii("FCGI_ROLE=AUTHORIZER"))
    else if role == FILTER then Some(Ascii("FCGI_ROLE=FILTER"))
    else None
  }

  /** The entries hold the role of a request, 1, 2 or 3, by its name. */
  predicate SaysRole(entries: seq<seq<byte>>, role: int) {
    && 1 <= role <= 3
    && Lookup(entries, Ascii("FCGI_ROLE"))
       == Some(if role == 1 then Ascii("RESPONDER") else if role == 2 then Ascii("AUTHORIZER") else Ascii("FILTER"))
  }

  lemma RoleIsSaid(role: int, more: seq<seq<byte>>)
    ensures RoleEntry(role).Some? <==> 1 <= role <= 3
    ensures RoleEntry(role).Some? ==> SaysRole([RoleEntry(role).value] + more, role)
  {
    assert Ascii("FCGI_ROLE=RESPONDER") == Ascii("FCGI_ROLE") + [61] + Ascii("RESPONDER");
    assert Ascii("FCGI_ROLE=AUTHORIZER") == Ascii("FCGI_ROLE") + [61] + Ascii("AUTHORIZER");
    assert Ascii("FCGI_ROLE=FILTER") == Ascii("FCGI_ROLE") + [61] + Ascii("FILTER");
    if RoleEntry(role).Some? {
      var value := RoleEntry(role).value;
      var name := if role == 1 then Ascii("RESPONDER") else if role == 2 then Ascii("AUTHORIZER") else Ascii("FILTER");
      assert value == Ascii("FCGI_ROLE") + [61] + name;
      hide Ascii, RoleEntry;
      FoundFirst(Ascii("FCGI_ROLE"), name, more);
    }
  }

  lemma FoundFirst(name: seq<byte>, value: seq<byte>, more: seq<seq<byte>>)
    ensures Lookup([name + [61] + value] + more, name) == Some(value)
  {
    var e := name + [61] + value;
    assert e[..|name|] == name && e[|name|] == 61 && e[|name| + 1..] == value;
  }

  /** How accepting a request ends. `BrokenOff` is a success report for a connection that failed
    * between two parameters: the code does not look at the stream's error then. `Overflowed` is where
    * the size of a parameter overflows.
    */
  datatype Acceptance =
    | Refused
    | Overflowed
    | BrokenOff(entries: seq<seq<byte>>)
    | Accepted(req: Begin, entries: seq<seq<byte>>, rest: seq<byte>, out: seq<byte>)

  /** The meaning of accepting a request, on the bytes of the connection. */
  function Accepting(env: Env, req: Begin, out: seq<byte>, wire: seq<byte>): Acceptance {
    var begin := Run(env.(kind := 0), NO_FRAME, req, out, wire);
    if !begin.Begins() then Refused
    else
      match RoleEntry(begin.req.role)
      case None => Refused
      case Some(role) => EnvironmentRead(env, [role], begin.req, begin.out, begin.rest)
  }

  /** Whatever is on the wire, a success comes with the role of the request that has begun, and any role but the three
    * is refused.
    */
  lemma AcceptedRole(env: Env, req: Begin, out: seq<byte>, wire: seq<byte>)
    ensures var a, begin := Accepting(env, req, out, wire), Run(env.(kind := 0), NO_FRAME, req, out, wire);
      && (a.Accepted? || a.BrokenOff? ==> begin.Begins() && SaysRole(a.entries, begin.req.role))
      && (begin.Begins() && !(1 <= begin.req.role <= 3) ==> a == Refused)
  {
    var begin := Run(env.(kind := 0), NO_FRAME, req, out, wire);
    RoleIsSaid(begin.req.role, []);
    hide Run, ParsePairs, RoleEntry, SaysRole;
    if begin.Begins() && RoleEntry(begin.req.role).Some? {
      var a := Accepting(env, req, out, wire);
      var first := [RoleEntry(begin.req.role).value];
      if a.Accepted? || a.BrokenOff? {
        RoleIsSaid(begin.req.role, a.entries[1..]);
        assert a.entries == first + a.entries[1..];
      }
    }
  }

  ghost function EnvOf(conn: Connection, kind: byte): Env {
    Env(kind, match conn.readErrno { case None => PROTOCOL_ERROR case Some(e) => e }, conn.limit, conn.writeErrno)
  }

  /** The outcome of accepting, in terms of the objects that hold it. */
  ghost predicate Reached(a: Acceptance, ok: bool, stream: Stream, params: Params)
    requires stream.Core()
    reads stream, stream.buff, stream.req, stream.req.conn, params, params.vec
  {
    match a
    case Refused => !ok
    case Overflowed => true
    case BrokenOff(entries) =>
      && ok && params.contents == entries
      && stream.fcgiErrno != 0 && stream.kind == STDIN && !stream.isClosed && stream.rdNext == stream.stop
    case Accepted(info, entries, rest, out) =>
      && ok && params.contents == entries && stream.req.Info() == info
      && stream.Client() && stream.kind == STDIN && !stream.isClosed && !stream.eorStop
      && stream.Available() == rest && stream.req.conn.outgoing == out
      && stream.Upcoming() == Run(EnvOf(stream.req.conn, STDIN), NO_FRAME, info, out, rest)
  }

  /** Read from a new connection up to a BEGIN_REQUEST record. */
  method ReadRole(req: Request, buff: array<byte>) returns (stream: Stream)
    requires req.conn.Valid() && HEADER_LEN <= buff.Length
    modifies req, req.conn, buff
    ensures fresh(stream) && stream.req == req && stream.buff == buff && stream.Valid()
    ensures var begin := Run(EnvOf(req.conn, 0), NO_FRAME, old(req.Info()).(begun := false), old(req.conn.outgoing),
                             old(req.conn.incoming));
            && req.isBeginProcessed == begin.Begins()
            && (begin.Begins() ==>
                  && stream.fcgiErrno == 0 && stream.rdNext == stream.stop
                  && req.Info() == begin.req && req.conn.outgoing == begin.out && stream.Available() == begin.rest)
  {
    hide Run;
    req.isBeginProcessed := false;
    stream := new Stream(req, buff, 0);
    stream.FillBuffProc();
  }

  /** The part of `FCGX_Accept_r` that follows the opening of the connection. */
  method AcceptRequest(req: Request, buff: array<byte>) returns (ok: bool, stream: Stream, params: Params)
    requires req.conn.Valid() && HEADER_LEN <= buff.Length
    modifies req, req.conn, buff
    ensures fresh(stream) && stream.req == req && stream.buff == buff && stream.Core() && params.Valid()
    ensures var env, info := EnvOf(req.conn, 0), old(req.Info()).(begun := false);
      var a := Accepting(env, info, old(req.conn.outgoing), old(req.conn.incoming));
      var begin := Run(env, NO_FRAME, info, old(req.conn.outgoing), old(req.conn.incoming));
      && Reached(a, ok, stream, params)
      && (a.Accepted? || a.BrokenOff? ==> begin.Begins() && SaysRole(params.contents, begin.req.role))
      && (begin.Begins() && !(1 <= begin.req.role <= 3) ==> !ok)
  {
    AcceptedRole(EnvOf(req.conn, 0), req.Info().(begun := false), req.conn.outgoing, req.conn.incoming);
    stream := ReadRole(req, buff);
    ok, params := AcceptRole(stream);
    hide Run, Accepting, SaysRole;
  }

  /** The role entry, and then the parameters. */
  method AcceptRole(stream: Stream) returns (ok: bool, params: Params)
    requires stream.Valid()
    requires stream.req.isBeginProcessed ==> stream.rdNext == stream.stop && stream.fcgiErrno == 0
    modifies stream, stream.buff, stream.req, stream.req.conn
    ensures stream.Core() && params.Valid()
    ensures Reached(old(if !stream.req.isBeginProcessed || RoleEntry(stream.req.role).None? then Refused
                        else EnvironmentRead(EnvOf(stream.req.conn, 0), [RoleEntry(stream.req.role).value],
                                             stream.req.Info(), stream.req.conn.outgoing, stream.Available())),
                    ok, stream, params)
  {
    hide Run, RoleEntry, EnvironmentRead;
    params := new Params(30);
    if !stream.req.isBeginProcessed {
      return false, params;
    }
    var role := RoleEntry(stream.req.role);
    if role == None {
      return false, params;
    }
    params.PutParam(role.value);
    assert params.contents == [role.value];
    ok := ReadEnvironment(stream, params);
  }

  /** What `AcceptRequest` comes to once a request has begun. */
  function EnvironmentRead(env: Env, entries: seq<seq<byte>>, req: Begin, out: seq<byte>, wire: seq<byte>): Acceptance {
    var params := Run(env.(kind := PARAMS), NO_FRAME, req, out, wire);
    var parsed := ParsePairs(params.bytes);
    if parsed.end == Overflow then Overflowed
    else if parsed.end == Inside then Refused
    else if params.end.Fault? then BrokenOff(entries + parsed.entries)
    else Accepted(params.req, entries + parsed.entries, params.rest, params.out)
  }

  /** Read the parameters, then set the stream to the request's input. */
  method ReadEnvironment(stream: Stream, params: Params) returns (ok: bool)
    requires stream.Valid() && stream.rdNext == stream.stop && stream.fcgiErrno == 0 && stream.req.isBeginProcessed
    requires params.Valid()
    modifies stream, stream.buff, stream.req, stream.req.conn, params, params.vec
    ensures stream.Core() && params.Valid()
    ensures Reached(old(EnvironmentRead(EnvOf(stream.req.conn, 0), params.contents, stream.req.Info(),
                                        stream.req.conn.outgoing, stream.Available())),
                    ok, stream, params)
  {
    hide Run, ParsePairs;
    stream.SetReaderType(PARAMS);
    ghost var whole := stream.Upcoming();
    var status := stream.ReadParams(params);
    if status < 0 {
      return false;
    }
    AtTheEnd(stream, whole);
    stream.SetReaderType(STDIN);
    return true;
  }

  lemma AtTheEnd(stream: Stream, whole: Pending)
    requires stream.Client() && stream.isClosed && stream.AtEnd(whole)
    ensures stream.fcgiErrno == 0 <==> !whole.end.Fault?
    ensures stream.fcgiErrno == 0 ==> stream.Available() == whole.rest && stream.req.Info() == whole.req
    ensures stream.fcgiErrno == 0 ==> stream.req.conn.outgoing == whole.out
  {
  }

  /** Reading a stream to its end with GetStr calls of any sizes. */
  method ReadToEnd(stream: Stream) returns (data: seq<byte>)
    requires stream.Client()
    modifies stream, stream.buff, stream.req, stream.req.conn
    ensures stream.Client() && stream.isClosed
    ensures data == old(stream.Upcoming()).bytes
    ensures stream.Upcoming() == old(stream.Upcoming()).Drop(|data|)
  {
    hide Run, Tail;
    ghost var whole := stream.Upcoming();
    data := [];
    assert whole.Drop(0) == whole;
    while !stream.isClosed
      invariant stream.Client()
      invariant |data| <= |whole.bytes| && data == whole.bytes[..|data|] && stream.Upcoming() == whole.Drop(|data|)
      invariant stream.isClosed ==> |data| == |whole.bytes|
      decreases |whole.bytes| - |data|, !stream.isClosed
    {
      var n: nat :| 0 < n;
      ghost var here, f, available := stream.Upcoming(), stream.Unread(), stream.Available();
      var str := stream.GetStr(n);
      stream.UseProgress(here, f, available, |str|);
      DropTwice(whole, |data|, |str|);
      data := data + str;
    }
    EndIsAll(stream, whole, |data|);
  }

  lemma EndIsAll(stream: Stream, whole: Pending, n: nat)
    requires stream.Client() && stream.isClosed && n <= |whole.bytes| && stream.Upcoming() == whole.Drop(n)
    ensures n == |whole.bytes|
  {
  }

  /** Looking at the next byte without taking it: one byte of pushback always works after a
    * byte has been read.
    */
  method Peek(stream: Stream) returns (c: int)
    requires stream.Client()
    modifies stream, stream.buff, stream.req, stream.req.conn
    ensures stream.Client() && stream.Upcoming() == old(stream.Upcoming())
    ensures c == if old(stream.Upcoming()).bytes == [] then EOF else old(stream.Upcoming()).bytes[0]
  {
    hide Run, Tail;
    ghost var whole, f, available := stream.Upcoming(), stream.Unread(), stream.Available();
    c := stream.GetChar();
    stream.UseProgress(whole, f, available, if c == EOF then 0 else 1);
    if c != EOF {
      var r := stream.UnGetChar(c);
      SameAgain(whole, stream.Upcoming(), c);
    }
  }

  lemma SameAgain(p: Pending, q: Pending, c: byte)
    requires p.bytes != [] && p.bytes[0] == c
    requires q.bytes == [c] + p.Drop(1).bytes && q.Drop(1) == p.Drop(1)
    ensures q == p
  {
    assert q.bytes == p.bytes;
  }

  // ------------------------------------------------------------- whole requests

  /** A BEGIN_REQUEST record for a role the library knows. */
  predicate Opening(r: Record) {
    && ValidRecord(r) && r.kind == BEGIN_REQUEST && r.id != NULL_REQUEST_ID && |r.content| == 8
    && RoleEntry(r.content[0] as int * 0x100 + r.content[1] as int).Some?
  }

  /** Padding that cannot be taken for a header. (Other padding is read as the header it spells.) */
  predicate NotAHeader(padding: seq<byte>) {
    padding == [] || padding[0] != VERSION_1
  }

  /** A request as a web server sends it: records that do not concern it, BEGIN_REQUEST, a
    * PARAMS stream and a STDIN stream, each possibly interrupted by other records.
    */
  predicate WellFormed(req: Begin, before: seq<Record>, opening: Record, ps: seq<Record>, psEnd: Record,
                       ss: seq<Record>, ssEnd: Record) {
    && !req.begun && AllAcceptable(0, req, before, false) && (forall r :: r in before ==> !Own(0, req, r))
    && Opening(opening) && NotAHeader(opening.padding)
    && var info := Announced(opening);
    && AllAcceptable(PARAMS, info, ps, false) && Ending(PARAMS, info, psEnd) && NotAHeader(psEnd.padding)
    && AllAcceptable(STDIN, info, ss, false) && Ending(STDIN, info, ssEnd)
  }

  function Wire(before: seq<Record>, opening: Record, ps: seq<Record>, psEnd: Record, ss: seq<Record>,
                ssEnd: Record): seq<byte>
    requires ValidRecords(before) && ValidRecord(opening) && ValidRecords(ps) && ValidRecord(psEnd)
    requires ValidRecords(ss) && ValidRecord(ssEnd)
  {
    EncodeAll(before) + (Encode(opening) + (EncodeAll(ps) + Encode(psEnd) + (EncodeAll(ss) + Encode(ssEnd))))
  }

  /** Without records of the stream, something is delivered exactly when something leaks. */
  lemma NothingDelivered(kind: byte, req: Begin, rs: seq<Record>)
    requires AllAcceptable(kind, req, rs, false) && forall r :: r in rs ==> !Own(kind, req, r)
    ensures Delivered(kind, req, rs, false) == [] <==> !Leaks(req, rs, false)
  {
    DeliveryIsExact(kind, req, rs, false);
    NoContents(kind, req, rs);
    forall j | 0 <= j < |rs|
      ensures !Own(kind, req, rs[j])
    {
      assert rs[j] in rs;
    }
  }

  lemma {:induction false} NoContents(kind: byte, req: Begin, rs: seq<Record>)
    requires forall r :: r in rs ==> !Own(kind, req, r)
    ensures Contents(kind, req, rs) == []
  {
    if rs != [] {
      NoContents(kind, req, rs[1..]);
    }
  }

  /** The records before a request let it through: they neither leave the reader skipping nor leak. */
  ghost predicate Opens(req: Begin, before: seq<Record>) {
    !Skipping(req, before, false, |before|) && !Leaks(req, before, false)
  }

  /** The records before a request, and its opening, whose padding is left in front of what follows. */
  lemma OpeningIsRead(env: Env, req: Begin, out: seq<byte>, before: seq<Record>, opening: Record, tail: seq<byte>)
    requires !req.begun && AllAcceptable(0, req, before, false) && ValidRecords(before)
    requires forall r :: r in before ==> !Own(0, req, r)
    requires env.kind == 0 && Accepts(env.limit, out, |Replies(0, req, before, false)|)
    requires Opening(opening)
    ensures var p := Run(env, NO_FRAME, req, out, EncodeAll(before) + (Head(opening) + (opening.content + tail)));
      && (p.Begins() <==> Opens(req, before))
      && (p.Begins() ==>
            p.rest == tail && p.req == Announced(opening) && p.out == out + Replies(0, req, before, false))
  {
    var lead := Head(opening) + (opening.content + tail);
    assert |lead| >= HEADER_LEN;
    ReadRecords(env, req, before, false, out, lead);
    NothingDelivered(0, req, before);
    SkipAtEndIsExact(req, before, false);
    ReadBegin(env, SkipAtEnd(req, before, false), req, out + Replies(0, req, before, false), opening, tail);
    hide Run, Skipping, Leaks;
  }

  lemma OpeningApart(opening: Record, rest: seq<byte>)
    requires ValidRecord(opening)
    ensures Encode(opening) + rest == Head(opening) + (opening.content + (opening.padding + rest))
  {
  }

  /** The parameters of a request are those of the bytes its PARAMS stream delivers, wherever records cut them, if no
    * padding comes before it; and otherwise there are none, and success is reported all the same.
    */
  lemma ParametersAreRead(env: Env, entries: seq<seq<byte>>, req: Begin, out: seq<byte>, padding: seq<byte>,
                          ps: seq<Record>, end: Record, rest: seq<byte>)
    requires AllAcceptable(PARAMS, req, ps, false) && ValidRecords(ps) && Ending(PARAMS, req, end)
    requires Accepts(env.limit, out, |Replies(PARAMS, req, ps, false)|) && NotAHeader(padding)
    ensures var parsed := ParsePairs(Delivered(PARAMS, req, ps, false));
            EnvironmentRead(env, entries, req, out, padding + (EncodeAll(ps) + Encode(end) + rest)) ==
              if padding != [] then BrokenOff(entries)
              else if parsed.end == Overflow then Overflowed
              else if parsed.end == Inside then Refused
              else Accepted(req, entries + parsed.entries, end.padding + rest, out + Replies(PARAMS, req, ps, false))
  {
    var wire := EncodeAll(ps) + Encode(end) + rest;
    if padding == [] {
      assert padding + wire == wire;
      ReaderDelivers(env.(kind := PARAMS), req, ps, out, end, rest);
    } else {
      LongEnough(padding, EncodeAll(ps), end, rest);
      PaddingIsReadAsHeader(env.(kind := PARAMS), req, out, padding, wire);
      assert ParsePairs([]) == Parsed([], Between) && entries + [] == entries;
    }
    hide Run, ParsePairs;
  }

  /** Padding that spells records is read as these records. */
  lemma PaddingReadAsRecords(env: Env, entries: seq<seq<byte>>, req: Begin, out: seq<byte>, qs: seq<Record>,
                             ps: seq<Record>, end: Record, rest: seq<byte>)
    requires AllAcceptable(PARAMS, req, qs + ps, false) && ValidRecords(qs) && ValidRecords(ps) &&
        Ending(PARAMS, req, end)
    requires Accepts(env.limit, out, |Replies(PARAMS, req, qs + ps, false)|)
    ensures var parsed := ParsePairs(Delivered(PARAMS, req, qs + ps, false));
            EnvironmentRead(env, entries, req, out, EncodeAll(qs) + (EncodeAll(ps) + Encode(end) + rest)) ==
              if parsed.end == Overflow then Overflowed
              else if parsed.end == Inside then Refused
              else Accepted(req, entries + parsed.entries, end.padding + rest,
                            out + Replies(PARAMS, req, qs + ps, false))
  {
    hide EncodeAll, Encode, EnvironmentRead, Replies, Delivered, ParsePairs, AllAcceptable;
    EncodeAllAppend(qs, ps);
    Rejoin(EncodeAll(qs), EncodeAll(ps), Encode(end), rest);
    ParametersAreRead(env, entries, req, out, [], qs + ps, end, rest);
  }

  lemma Rejoin(a: seq<byte>, b: seq<byte>, c: seq<byte>, d: seq<byte>)
    ensures a + (b + c + d) == [] + (a + b + c + d)
  {
  }

  lemma LongEnough(a: seq<byte>, b: seq<byte>, end: Record, rest: seq<byte>)
    requires ValidRecord(end)
    ensures |a + (b + Encode(end) + rest)| >= HEADER_LEN
  {
  }

  /** The parameters are the sender's pairs, in order. */
  lemma ParametersAreTheSenders(req: Begin, ps: seq<Record>, cs: seq<CodedPair>)
    requires AllAcceptable(PARAMS, req, ps, false) && !Swallows(PARAMS, req, ps, false) && !Leaks(req, ps, false)
    requires ValidCodedPairs(cs) && Contents(PARAMS, req, ps) == EncodePairs(cs)
    ensures AllAllocatable(cs) ==> ParsePairs(Delivered(PARAMS, req, ps, false)) == Parsed(Entries(cs), Between)
    ensures !AllAllocatable(cs) ==> ParsePairs(Delivered(PARAMS, req, ps, false)).end == Overflow
  {
    DeliveryIsExact(PARAMS, req, ps, false);
    ParseEncodedPairs(cs);
    hide ParsePairs, Swallows, Leaks;
  }

  /** The input of a request, behind the padding of the record that ended its parameters. */
  lemma InputIsRead(env: Env, req: Begin, out: seq<byte>, padding: seq<byte>, ss: seq<Record>, end: Record)
    requires AllAcceptable(STDIN, req, ss, false) && ValidRecords(ss) && Ending(STDIN, req, end)
    requires Accepts(env.limit, out, |Replies(STDIN, req, ss, false)|) && env.kind == STDIN && NotAHeader(padding)
    ensures var input := Run(env, NO_FRAME, req, out, padding + (EncodeAll(ss) + Encode(end)));
            && (padding != [] ==> input.bytes == [] && input.end == Fault(UNSUPPORTED_VERSION))
            && (padding == [] ==>
                  && input.end == Eof && input.rest == end.padding && input.out == out + Replies(STDIN, req, ss, false)
                  && input.bytes == Delivered(STDIN, req, ss, false))
  {
    var wire := EncodeAll(ss) + Encode(end);
    assert wire + [] == wire;
    if padding == [] {
      assert padding + wire == wire && end.padding + [] == end.padding;
      ReaderDelivers(env, req, ss, out, end, []);
    } else {
      LongEnough(padding, EncodeAll(ss), end, []);
      PaddingIsReadAsHeader(env, req, out, padding, wire);
    }
    hide Run;
  }

  /** What a request is answered with on the way in. */
  function AllReplies(req: Begin, before: seq<Record>, info: Begin, ps: seq<Record>, ss: seq<Record>): seq<byte>
    requires AllAcceptable(0, req, before, false) && AllAcceptable(PARAMS, info, ps, false) &&
        AllAcceptable(STDIN, info, ss, false)
  {
    Replies(0, req, before, false) + Replies(PARAMS, info, ps, false) + Replies(STDIN, info, ss, false)
  }

  /** From the first byte of a connection to the end of the request's input: exactly when the request is accepted,
    * when it is refused, and when success is reported for nothing; and the request, the parameters and the input that
    * are then read.
    */
  lemma RequestIsRead(env: Env, req: Begin, out: seq<byte>, before: seq<Record>, opening: Record,
                      ps: seq<Record>, psEnd: Record, ss: seq<Record>, ssEnd: Record)
    requires WellFormed(req, before, opening, ps, psEnd, ss, ssEnd)
    requires ValidRecords(before) && ValidRecords(ps) && ValidRecords(ss)
    requires env.kind == 0 && Accepts(env.limit, out, |AllReplies(req, before, Announced(opening), ps, ss)|)
    ensures var info := Announced(opening);
            var a := Accepting(env, req, out, Wire(before, opening, ps, psEnd, ss, ssEnd));
            var role := RoleEntry(info.role).value;
            var parsed := ParsePairs(Delivered(PARAMS, info, ps, false));
            var opens := Opens(req, before);
            && (a == Refused <==> !opens || (opening.padding == [] && parsed.end == Inside))
            && (a == Overflowed <==> opens && opening.padding == [] && parsed.end == Overflow)
            && (a == BrokenOff([role]) <==> opens && opening.padding != [])
            && (a.Accepted? <==> opens && opening.padding == [] && parsed.Ok())
            && (a.Accepted? ==>
                  && a.req == info && a.entries == [role] + parsed.entries
                  && a.req.id == opening.id && (a.req.keepConnection <==> opening.content[2] % 2 == 1)
                  && SaysRole(a.entries, opening.content[0] as int * 256 + opening.content[1] as int)
                  && var input := Run(env.(kind := STDIN), NO_FRAME, info, a.out, a.rest);
                     && (input.end == Eof <==> psEnd.padding == [])
                     && (psEnd.padding != [] ==> input.bytes == [] && input.end == Fault(UNSUPPORTED_VERSION))
                     && (psEnd.padding == [] ==>
                         input.rest == ssEnd.padding && input.bytes == Delivered(STDIN, info, ss, false)))
  {
    var info := Announced(opening);
    var input := EncodeAll(ss) + Encode(ssEnd);
    var environment := EncodeAll(ps) + Encode(psEnd) + input;
    OpeningApart(opening, environment);
    OpeningIsRead(env, req, out, before, opening, opening.padding + environment);
    var begin := Run(env, NO_FRAME, req, out, EncodeAll(before) + (Encode(opening) + environment));
    hide Run, EnvironmentRead, RoleEntry, SaysRole, Opens, ParsePairs, Replies, Delivered, AllAcceptable;
    if begin.Begins() {
      var role := RoleEntry(info.role).value;
      ParametersAreRead(env, [role], info, begin.out, opening.padding, ps, psEnd, input);
      RoleIsSaid(info.role, ParsePairs(Delivered(PARAMS, info, ps, false)).entries);
      InputIsRead(env.(kind := STDIN), info, begin.out + Replies(PARAMS, info, ps, false), psEnd.padding, ss, ssEnd);
    }
  }

  /** A request for a role that the library does not know is refused, whatever follows. */
  lemma OtherRoleRefused(env: Env, req: Begin, out: seq<byte>, opening: Record, rest: seq<byte>)
    requires env.kind == 0 && ValidRecord(opening) && BeginsRequest(req, opening)
    requires !(1 <= opening.content[0] as int * 256 + opening.content[1] as int <= 3)
    ensures Accepting(env, req, out, Encode(opening) + rest) == Refused
  {
    OpeningApart(opening, rest);
    ReadBegin(env, false, req, out, opening, opening.padding + rest);
    RoleIsSaid(Announced(opening).role, []);
    hide Run, EnvironmentRead;
  }

  /** A request whose BEGIN_REQUEST record is padded with a single zero: success is reported without any parameters. */
  lemma PaddedOpening(env: Env, req: Begin, out: seq<byte>, opening: Record, ps: seq<Record>, psEnd: Record,
                      rest: seq<byte>)
    requires env.kind == 0 && !req.begun && Opening(opening) && opening.padding == [0]
    requires AllAcceptable(PARAMS, Announced(opening), ps, false) && ValidRecords(ps) &&
        Ending(PARAMS, Announced(opening), psEnd)
    requires Accepts(env.limit, out, |Replies(PARAMS, Announced(opening), ps, false)|)
    ensures Accepting(env, req, out, Encode(opening) + (EncodeAll(ps) + Encode(psEnd) + rest))
            == BrokenOff([RoleEntry(Announced(opening).role).value])
  {
    var wire := EncodeAll(ps) + Encode(psEnd) + rest;
    OpeningApart(opening, wire);
    OpeningIsRead(env, req, out, [], opening, opening.padding + wire);
    assert EncodeAll([]) + (Encode(opening) + wire) == Encode(opening) + wire &&
        out + Replies(0, req, [], false) == out;
    ParametersAreRead(env, [RoleEntry(Announced(opening).role).value], Announced(opening), out, [0], ps, psEnd, rest);
    hide Run, EnvironmentRead, RoleEntry;
  }
}
