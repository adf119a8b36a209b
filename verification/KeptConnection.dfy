/** Several requests on one connection that is kept: each is read by a new reader, which knows the id of the request
  * before and gets what the reader before has left on the connection, but not what it has left in its buffer.
  */
module KeptConnection {
  import opened Basics
  import opened FcgiProtocol
  import opened FcgiConnection
  import opened NameValue
  import opened ReaderSpec
  import opened Reader
  import opened ReaderTheorems
  import opened CutStreams
  import opened RequestReading
  import opened AnyBytes

  /** A request as a web server sends it. */
  datatype Sent = Sent(before: seq<Record>, opening: Record, ps: seq<Record>, psEnd: Record, ss: seq<Record>,
                       ssEnd: Record)
  {
    function Info(): Begin {
      if |opening.content| == 8 then Announced(opening) else Begin(0, 0, false, false)
    }
  }

  /** A request that is read as it was sent after the request `last`, and leaves nothing for the next reader. */
  ghost predicate Clean(last: Begin, s: Sent) {
    && WellFormed(last.(begun := false), s.before, s.opening, s.ps, s.psEnd, s.ss, s.ssEnd)
    && ValidRecords(s.before) && ValidRecords(s.ps) && ValidRecords(s.ss)
    && s.opening.padding == [] && s.psEnd.padding == [] && s.ssEnd.padding == []
    && Opens(last.(begun := false), s.before)
    && ParsePairs(Delivered(PARAMS, s.Info(), s.ps, false)).Ok()
  }

  function Last(first: Begin, sent: seq<Sent>, i: nat): Begin
    requires i <= |sent|
  {
    if i == 0 then first else sent[i - 1].Info()
  }

  ghost predicate AllClean(first: Begin, sent: seq<Sent>) {
    forall i :: 0 <= i < |sent| ==> Clean(Last(first, sent, i), sent[i])
  }

  function WireOf(s: Sent): seq<byte>
    requires ValidRecords(s.before) && ValidRecord(s.opening) && ValidRecords(s.ps) && ValidRecord(s.psEnd)
    requires ValidRecords(s.ss) && ValidRecord(s.ssEnd)
  {
    Wire(s.before, s.opening, s.ps, s.psEnd, s.ss, s.ssEnd)
  }

  /** The environment and the input of a request. */
  datatype Served = Served(environment: seq<Slot>, input: seq<byte>)

  function Expected(s: Sent): Served {
    var role := match RoleEntry(s.Info().role) case None => [] case Some(entry) => [entry];
    Served(Slots(role + ParsePairs(Delivered(PARAMS, s.Info(), s.ps, false)).entries),
           Delivered(STDIN, s.Info(), s.ss, false))
  }

  // ------------------------------------------------------------ one request after another

  /** What the server reads of such a request. */
  lemma CleanIsRead(env: Env, last: Begin, out: seq<byte>, s: Sent)
    requires env.kind == 0 && env.limit == None && Clean(last, s)
    ensures var a := Accepting(env, last.(begun := false), out, WireOf(s));
      && a.Accepted? && a.req == s.Info() && Slots(a.entries) == Expected(s).environment
      && var input := Run(env.(kind := STDIN), NO_FRAME, a.req, a.out, a.rest);
         input.end == Eof && input.rest == [] && input.bytes == Expected(s).input && input.req == s.Info()
  {
    hide Run, ParsePairs, Delivered, AllAcceptable, Opens, RoleEntry, Wire, Accepting, Replies, SaysRole;
    RequestIsRead(env, last.(begun := false), out, s.before, s.opening, s.ps, s.psEnd, s.ss, s.ssEnd);
    var a := Accepting(env, last.(begun := false), out, WireOf(s));
    RunStaysBegun(env.(kind := STDIN), NO_FRAME, a.req, a.out, a.rest);
  }

  /** Accept a request and read its input to the end. */
  method ServeOne(req: Request, buff: array<byte>, ghost s: Sent) returns (served: Served)
    requires req.conn.limit == None && HEADER_LEN <= buff.Length
    requires Clean(req.Info(), s) && req.conn.incoming == WireOf(s)
    modifies req, req.conn, buff
    ensures served == Expected(s) && req.conn.incoming == [] && req.Info() == s.Info()
  {
    hide Run, Expected, WireOf, Clean, Accepting, Sent.Info, SaysRole;
    CleanIsRead(EnvOf(req.conn, 0), req.Info(), req.conn.outgoing, s);
    var ok, stream, params := AcceptRequest(req, buff);
    var environment := params.vec[..params.cur];
    ghost var whole := stream.Upcoming();
    var input := ReadToEnd(stream);
    AllTaken(stream, whole, |input|);
    served := Served(environment, input);
  }

  lemma AllTaken(stream: Stream, whole: Pending, n: nat)
    requires stream.Client() && stream.isClosed && n <= |whole.bytes| && stream.Upcoming() == whole.Drop(n)
    requires whole.end == Eof && whole.rest == []
    ensures stream.req.conn.incoming == [] && stream.req.Info() == whole.req
  {
  }

  /** Serve requests one after another, each sent when the one before has been read: all are read as they were sent. */
  method Serve(req: Request, buff: array<byte>, sent: seq<Sent>) returns (served: seq<Served>)
    requires req.conn.limit == None && HEADER_LEN <= buff.Length
    requires req.conn.incoming == [] && AllClean(req.Info(), sent)
    modifies req, req.conn, buff
    ensures |served| == |sent| && req.conn.incoming == []
    ensures forall i :: 0 <= i < |sent| ==> served[i] == Expected(sent[i])
  {
    hide Clean, Expected, WireOf, Wire, EncodeAll, Encode, ValidRecords, ValidRecord, Opening, RoleEntry, Sent.Info;
    served := [];
    var i := 0;
    while i < |sent|
      invariant i == |served| <= |sent|
      invariant req.Info() == Last(old(req.Info()), sent, i) && req.conn.incoming == []
      invariant forall j :: 0 <= j < i ==> served[j] == Expected(sent[j])
    {
      CleanIsValid(Last(old(req.Info()), sent, i), sent[i]);
      req.conn.incoming := WireOf(sent[i]);
      var one := ServeOne(req, buff, sent[i]);
      served := served + [one];
      i := i + 1;
    }
  }

  lemma CleanIsValid(last: Begin, s: Sent)
    requires Clean(last, s)
    ensures ValidRecords(s.before) && ValidRecord(s.opening) && ValidRecords(s.ps) && ValidRecord(s.psEnd)
    ensures ValidRecords(s.ss) && ValidRecord(s.ssEnd) && Opening(s.opening)
  {
  }

  // ------------------------------------------------------------ what goes wrong

  /** Records of the request before that are left on the connection, its unread input for one, keep the next request
    * from beginning, whatever follows them, unless a BEGIN_REQUEST record is among them.
    */
  lemma {:induction false} LeftoversRefuse(env: Env, skip: bool, req: Begin, out: seq<byte>, rs: seq<Record>, j: nat,
                                           rest: seq<byte>)
    requires !req.begun && ValidRecords(rs) && j < |rs| && env.limit == None
    requires rs[j].id == req.id != NULL_REQUEST_ID && rs[j].kind != env.kind
    requires forall i :: 0 <= i <= j ==> rs[i].kind != BEGIN_REQUEST
    ensures !Run(env, Frame(0, 0, skip), req, out, EncodeAll(rs) + rest).Begins()
    decreases j
  {
    var r, more := rs[0], EncodeAll(rs[1..]) + rest;
    assert r in rs && EncodeAll(rs) + rest == Encode(r) + more;
    if !Acceptable(env.kind, req, r, skip) {
      Fails(env, skip, req, out, r, more);
    } else {
      var reply := if Foreign(req, r) || Management(r, skip) then ReplyOf(req, r, skip) else [];
      assert j > 0;
      assert |EncodeAll(rs[1..])| >= |Encode(rs[1])| by {
        assert rs[1..][0] == rs[1];
      }
      hide Run, Encode, EncodeAll, ReplyOf, Acceptable, Foreign, Management;
      ReadRecord(env, skip, req, out, r, more);
      LeftoversRefuse(env, SkipAfter(req, r, skip), req, out + reply, rs[1..], j - 1, rest);
    }
  }

  /** A record that is not acceptable and is no BEGIN_REQUEST record. */
  lemma Fails(env: Env, skip: bool, req: Begin, out: seq<byte>, r: Record, rest: seq<byte>)
    requires ValidRecord(r) && !Acceptable(env.kind, req, r, skip) && r.kind != BEGIN_REQUEST && env.limit == None
    ensures !Run(env, Frame(0, 0, skip), req, out, Encode(r) + rest).Begins()
  {
    var left := Encode(r) + rest;
    FirstOfEncoded(r, rest);
    AtHead(env, skip, req, out, r, []);
    StuckIsRead(env, skip, req, out, left);
    assert left[..HEADER_LEN] == Head(r);
    hide Run, First, FirstSize;
  }

  /** Without a BEGIN_REQUEST record no request begins. */
  lemma {:induction false} NothingBegins(env: Env, skip: bool, req: Begin, out: seq<byte>, rs: seq<Record>)
    requires ValidRecords(rs) && env.limit == None && forall i :: 0 <= i < |rs| ==> rs[i].kind != BEGIN_REQUEST
    ensures !Run(env, Frame(0, 0, skip), req, out, EncodeAll(rs)).Begins()
    decreases |rs|
  {
    if rs != [] {
      var r, more := rs[0], EncodeAll(rs[1..]);
      assert r in rs && EncodeAll(rs) == Encode(r) + more;
      if !Acceptable(env.kind, req, r, skip) {
        Fails(env, skip, req, out, r, more);
      } else if more == [] {
        assert Encode(r) + more == Encode(r) == Encode(r)[..|Encode(r)|];
        ReadCut(env, skip, req, out, r, |Encode(r)|);
      } else {
        var reply := if Foreign(req, r) || Management(r, skip) then ReplyOf(req, r, skip) else [];
        hide Run, Encode, EncodeAll, ReplyOf, Acceptable, Foreign, Management;
        ReadRecord(env, skip, req, out, r, more);
        NothingBegins(env, SkipAfter(req, r, skip), req, out + reply, rs[1..]);
      }
    }
  }

  /** A request whose opening the reader before has taken into its buffer, and so has taken away, is refused. */
  lemma DroppedOpening(env: Env, last: Begin, out: seq<byte>, s: Sent, rs: seq<Record>)
    requires env.kind == 0 && env.limit == None && ValidRecords(rs)
    requires rs == s.ps + [s.psEnd] + s.ss + [s.ssEnd] && forall i :: 0 <= i < |rs| ==> rs[i].kind != BEGIN_REQUEST
    ensures Accepting(env, last.(begun := false), out, EncodeAll(rs)) == Refused
  {
    NothingBegins(env, false, last.(begun := false), out, rs);
    hide Run;
    NotBegun(env, last.(begun := false), out, EncodeAll(rs));
  }

  /** A request sent while input of the one before is still unread on the connection is refused. */
  lemma UnreadInputRefuses(env: Env, last: Begin, out: seq<byte>, unread: seq<Record>, end: Record, next: seq<byte>)
    requires env.kind == 0 && env.limit == None && ValidRecords(unread) && Ending(STDIN, last, end)
    requires forall i :: 0 <= i < |unread| ==> unread[i].kind != BEGIN_REQUEST
    ensures Accepting(env, last.(begun := false), out, EncodeAll(unread) + (Encode(end) + next)) == Refused
  {
    hide Run, Encode, EncodeAll, EnvironmentRead, RoleEntry, Accepting;
    UnreadWire(unread, end, next);
    LeftoversRefuse(env, false, last.(begun := false), out, unread + [end], |unread|, next);
    NotBegun(env, last.(begun := false), out, EncodeAll(unread) + (Encode(end) + next));
  }

  lemma UnreadWire(unread: seq<Record>, end: Record, next: seq<byte>)
    requires ValidRecords(unread) && ValidRecord(end)
    requires forall i :: 0 <= i < |unread| ==> unread[i].kind != BEGIN_REQUEST
    ensures var all := unread + [end];
      && ValidRecords(all) && all[|unread|] == end
      && (end.kind != BEGIN_REQUEST ==> forall i :: 0 <= i <= |unread| ==> all[i].kind != BEGIN_REQUEST)
      && EncodeAll(all) + next == EncodeAll(unread) + (Encode(end) + next)
  {
    hide Encode, EncodeAll, ValidRecord;
    EncodeOne(end);
    EncodeAllAppend(unread, [end]);
    Associate(EncodeAll(unread), Encode(end), next);
  }

  lemma NotBegun(env: Env, req: Begin, out: seq<byte>, wire: seq<byte>)
    requires env.kind == 0 && !Run(env, NO_FRAME, req, out, wire).Begins()
    ensures Accepting(env, req, out, wire) == Refused
  {
    hide Run;
  }
}
