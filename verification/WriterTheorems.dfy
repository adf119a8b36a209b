/** The two output streams of a request over whole runs: any interleaving of writes, flushes,
  * closes and exit-status changes.
  */
module WriterTheorems {
  import opened Basics
  import opened FcgiProtocol
  import opened WriterSpec

  datatype Which = Out | Err

  datatype Op =
    | PutOp(which: Which, bytes: seq<byte>)
    | FlushOp(which: Which)
    | CloseOp(which: Which)
    | StatusOp(status: int)

  /** The output streams of a request and the records on its connection. */
  datatype Pair = Pair(out: Side, err: Side, shared: Shared, records: seq<Record>)
  {
    function Get(which: Which): Side {
      if which == Out then out else err
    }
  }

  predicate ValidPair(p: Pair) {
    && ValidSide(p.out) && ValidSide(p.err)
    && p.out.kind != p.err.kind && p.out.kind != END_REQUEST && p.err.kind != END_REQUEST
  }

  function Apply(p: Pair, which: Which, e: Effect): Pair {
    if which == Out then p.(out := e.side, shared := e.shared, records := p.records + e.records)
    else p.(err := e.side, shared := e.shared, records := p.records + e.records)
  }

  function EffectOn(s: Side, shared: Shared, op: Op): Effect
    requires ValidSide(s) && !op.StatusOp?
  {
    match op
    case PutOp(_, bytes) => Put(s, shared, bytes)
    case FlushOp(_) => Flush(s, shared)
    case CloseOp(_) => Close(s, shared)
  }

  function EffectOf(p: Pair, op: Op): Effect
    requires ValidPair(p) && !op.StatusOp?
  {
    EffectOn(p.Get(op.which), p.shared, op)
  }

  function Step(p: Pair, op: Op): (q: Pair)
    requires ValidPair(p)
    ensures ValidPair(q)
  {
    if op.StatusOp? then p.(shared := p.shared.(appStatus := op.status))
    else Apply(p, op.which, EffectOf(p, op))
  }

  function Run(p: Pair, ops: seq<Op>): (q: Pair)
    requires ValidPair(p)
    ensures ValidPair(q)
  {
    if ops == [] then p else Step(Run(p, ops[..|ops| - 1]), ops[|ops| - 1])
  }

  /** A request's streams as `FCGX_Accept_r` leaves them. */
  predicate Fresh(p: Pair) {
    && ValidPair(p) && p.records == [] && p.shared.nWriters == 2
    && p.out.pending == [] && !p.out.written && !p.out.closed
    && p.err.pending == [] && !p.err.written && !p.err.closed
  }

  // --------------------------------------------- what a run is meant to come to

  predicate ClosedIn(ops: seq<Op>, which: Which) {
    CloseOp(which) in ops
  }

  /** The bytes a stream was given before it was first closed. */
  function Given(ops: seq<Op>, which: Which): seq<byte> {
    if ops == [] then []
    else
      var before, op := ops[..|ops| - 1], ops[|ops| - 1];
      Given(before, which) + if op.PutOp? && op.which == which && !ClosedIn(before, which) then op.bytes else []
  }

  /** The exit status most recently set. */
  function LastStatus(initial: int, ops: seq<Op>): int {
    if ops == [] then initial
    else if ops[|ops| - 1].StatusOp? then ops[|ops| - 1].status
    else LastStatus(initial, ops[..|ops| - 1])
  }

  /** The exit status set last before the second of the two streams was closed. */
  function FinalStatus(initial: int, ops: seq<Op>): int
    requires ClosedIn(ops, Out) && ClosedIn(ops, Err)
  {
    var before := ops[..|ops| - 1];
    if ClosedIn(before, Out) && ClosedIn(before, Err) then FinalStatus(initial, before) else LastStatus(initial, before)
  }

  function OfKind(rs: seq<Record>, kind: byte): seq<Record> {
    if rs == [] then []
    else OfKind(rs[..|rs| - 1], kind) + if rs[|rs| - 1].kind == kind then [rs[|rs| - 1]] else []
  }

  function Contents(rs: seq<Record>): seq<byte> {
    if rs == [] then [] else Contents(rs[..|rs| - 1]) + rs[|rs| - 1].content
  }

  /** A data record: not empty, at most a buffer full, padded to a multiple of eight. */
  predicate DataShape(s: Side, id: uint16, r: Record) {
    && r.kind == s.kind && r.id == id
    && 1 <= |r.content| <= s.cap && |r.padding| <= 7
    && (HEADER_LEN + |r.content| + |r.padding|) % 8 == 0
  }

  /** The records of one stream: data records whose contents are what the stream was given, less
    * what is still in its buffer; and after it is closed one empty record, except for an error
    * stream that was given nothing.
    */
  predicate StreamShape(s: Side, id: uint16, rs: seq<Record>, given: seq<byte>) {
    var ended := s.closed && !(s.kind == STDERR && given == []);
    && (ended ==> rs != [] && rs[|rs| - 1] == Record(s.kind, id, [], [], 0))
    && var data := if ended then rs[..|rs| - 1] else rs;
       && (forall r :: r in data ==> DataShape(s, id, r))
       && Contents(data) + s.pending == given
       && (s.closed ==> s.pending == [])
       && (!s.closed ==> (s.written <==> data != []))
  }

  // ------------------------------------------------------------------- lemmas

  lemma OfKindSnoc(rs: seq<Record>, r: Record, kind: byte)
    ensures OfKind(rs + [r], kind) == OfKind(rs, kind) + if r.kind == kind then [r] else []
    ensures Contents(rs + [r]) == Contents(rs) + r.content
  {
    assert (rs + [r])[..|rs + [r]| - 1] == rs;
  }

  lemma {:induction false} OfKindAppend(xs: seq<Record>, ys: seq<Record>, kind: byte)
    ensures OfKind(xs + ys, kind) == OfKind(xs, kind) + OfKind(ys, kind)
  {
    if ys == [] {
      assert xs + ys == xs;
    } else {
      hide OfKind;
      var before, last := ys[..|ys| - 1], ys[|ys| - 1];
      assert ys == before + [last] && xs + ys == xs + before + [last];
      OfKindSnoc(xs + before, last, kind);
      OfKindSnoc(before, last, kind);
      OfKindAppend(xs, before, kind);
      assert OfKind(xs, kind) + OfKind(before, kind) + [last] == OfKind(xs, kind) + (OfKind(before, kind) + [last]);
    }
  }

  lemma {:induction false} ContentsAppend(xs: seq<Record>, ys: seq<Record>)
    ensures Contents(xs + ys) == Contents(xs) + Contents(ys)
  {
    if ys == [] {
      assert xs + ys == xs;
    } else {
      hide Contents;
      var before, last := ys[..|ys| - 1], ys[|ys| - 1];
      assert ys == before + [last] && xs + ys == xs + before + [last];
      OfKindSnoc(xs + before, last, 0);
      OfKindSnoc(before, last, 0);
      ContentsAppend(xs, before);
    }
  }

  lemma {:induction false} OfKindAll(rs: seq<Record>, kind: byte)
    ensures (forall r :: r in rs ==> r.kind == kind) ==> OfKind(rs, kind) == rs
    ensures (forall r :: r in rs ==> r.kind != kind) ==> OfKind(rs, kind) == []
  {
    if rs != [] {
      OfKindAll(rs[..|rs| - 1], kind);
      assert rs == rs[..|rs| - 1] + [rs[|rs| - 1]];
    }
  }

  lemma DataRecordShape(s: Side, id: uint16, content: seq<byte>)
    requires ValidSide(s) && content != [] && |content| <= s.cap
    ensures DataShape(s, id, DataRecord(s.kind, id, content))
    ensures Contents([DataRecord(s.kind, id, content)]) == content
  {
    var r := DataRecord(s.kind, id, content);
    assert [r][..0] == [];
    assert Contents([]) + content == content;
  }

  lemma Regroup(pending: seq<byte>, bytes: seq<byte>, room: nat, contents: seq<byte>, left: seq<byte>)
    requires room <= |bytes| && contents + left == [] + bytes[room..]
    ensures pending + bytes[..room] + contents + left == pending + bytes
  {
    assert pending + bytes[..room] + contents + left == pending + bytes[..room] + (contents + left);
  }

  lemma DataOnly(s: Side, id: uint16, xs: seq<Record>, ys: seq<Record>)
    requires (forall r :: r in xs ==> DataShape(s, id, r)) && (forall r :: r in ys ==> DataShape(s, id, r))
    ensures forall r :: r in xs + ys ==> DataShape(s, id, r)
  {
  }

  /** Writing loses and invents nothing: the records it sends off and the bytes it leaves in the
    * buffer are the bytes that were in the buffer and the bytes written.
    */
  lemma {:induction false} PutConserves(s: Side, shared: Shared, bytes: seq<byte>)
    requires ValidSide(s) && !s.closed
    ensures var e := Put(s, shared, bytes);
            && e.shared == shared && e.side.kind == s.kind && e.side.cap == s.cap && !e.side.closed
            && (forall r :: r in e.records ==> DataShape(s, shared.id, r))
            && Contents(e.records) + e.side.pending == s.pending + bytes
            && (e.side.written <==> s.written || e.records != [])
    decreases |bytes|, |s.pending|
  {
    var room := s.cap - |s.pending|;
    if |bytes| <= room {
      assert [] + (s.pending + bytes) == s.pending + bytes;
    } else {
      var content := s.pending + bytes[..room];
      var next := s.(pending := [], written := true);
      PutConserves(next, shared, bytes[room..]);
      DataRecordShape(s, shared.id, content);
      var more := Put(next, shared, bytes[room..]);
      var first := [DataRecord(s.kind, shared.id, content)];
      ContentsAppend(first, more.records);
      Regroup(s.pending, bytes, room, Contents(more.records), more.side.pending);
      DataOnly(s, shared.id, first, more.records);
    }
  }

  // ------------------------------------------- each step keeps the shape of a stream

  lemma PutKeeps(s: Side, shared: Shared, rs: seq<Record>, given: seq<byte>, bytes: seq<byte>)
    requires ValidSide(s) && !s.closed && StreamShape(s, shared.id, rs, given)
    ensures var e := Put(s, shared, bytes); StreamShape(e.side, shared.id, rs + e.records, given + bytes)
  {
    var e := Put(s, shared, bytes);
    PutConserves(s, shared, bytes);
    hide Put;
    ContentsAppend(rs, e.records);
    DataOnly(s, shared.id, rs, e.records);
    Conserve(Contents(rs), s.pending, bytes, Contents(e.records), e.side.pending);
  }

  lemma Conserve(before: seq<byte>, pending: seq<byte>, bytes: seq<byte>, sent: seq<byte>, left: seq<byte>)
    requires sent + left == pending + bytes
    ensures before + sent + left == before + pending + bytes
  {
    assert before + sent + left == before + (sent + left);
  }

  lemma FlushKeeps(s: Side, shared: Shared, rs: seq<Record>, given: seq<byte>)
    requires ValidSide(s) && !s.closed && StreamShape(s, shared.id, rs, given)
    ensures var e := Flush(s, shared); StreamShape(e.side, shared.id, rs + e.records, given)
    ensures (s.pending == [] && !s.written) <==> given == []
  {
    var e := Flush(s, shared);
    ContentsAppend(rs, e.records);
    if s.pending != [] {
      DataRecordShape(s, shared.id, s.pending);
      DataOnly(s, shared.id, rs, e.records);
    } else {
      assert rs + e.records == rs;
    }
    if rs != [] {
      assert DataShape(s, shared.id, rs[|rs| - 1]);
    }
  }

  /** The part of the closing records that belongs to the stream itself. */
  function OwnClose(s: Side, shared: Shared): seq<Record>
    requires ValidSide(s)
  {
    Flushed(s, shared.id)
    + if s.kind == STDERR && s.pending == [] && !s.written then [] else [Record(s.kind, shared.id, [], [], 0)]
  }

  lemma CloseKeeps(s: Side, shared: Shared, rs: seq<Record>, given: seq<byte>)
    requires ValidSide(s) && !s.closed && StreamShape(s, shared.id, rs, given)
    ensures StreamShape(Close(s, shared).side, shared.id, rs + OwnClose(s, shared), given)
  {
    FlushKeeps(s, shared, rs, given);
    var data, end := rs + Flushed(s, shared.id), Record(s.kind, shared.id, [], [], 0);
    var all := rs + OwnClose(s, shared);
    if given != [] || s.kind != STDERR {
      assert all == data + [end] by { Associate(rs, Flushed(s, shared.id), [end]); }
      EndAdded(Flush(s, shared).side, Close(s, shared).side, shared.id, data, end, given);
    } else {
      assert all == data;
    }
  }

  lemma EndAdded(s: Side, t: Side, id: uint16, data: seq<Record>, end: Record, given: seq<byte>)
    requires StreamShape(s, id, data, given) && !s.closed && s.pending == []
    requires t == s.(closed := true, written := true) && end == Record(s.kind, id, [], [], 0)
    requires given != [] || s.kind != STDERR
    ensures StreamShape(t, id, data + [end], given)
  {
    var all := data + [end];
    assert all[|all| - 1] == end && all[..|all| - 1] == data;
    forall r | r in data
      ensures DataShape(t, id, r)
    {
      assert DataShape(s, id, r);
    }
    assert Contents(data) + t.pending == given;
  }

  lemma ClosingByKind(s: Side, shared: Shared, kind: byte)
    requires ValidSide(s) && !s.closed && s.kind != END_REQUEST
    ensures var rs := Close(s, shared).records;
            && (kind == s.kind ==> OfKind(rs, kind) == OwnClose(s, shared))
            && (kind == END_REQUEST ==>
                  OfKind(rs, kind) ==
                  if shared.nWriters == 1 then [EndRequestRecord(shared.id, shared.appStatus, REQUEST_COMPLETE)]
                  else [])
            && (kind != s.kind && kind != END_REQUEST ==> OfKind(rs, kind) == [])
  {
    hide OfKind, EndRequestRecord, DataRecord;
    var own := OwnClose(s, shared);
    var end := if shared.nWriters == 1 then [EndRequestRecord(shared.id, shared.appStatus, REQUEST_COMPLETE)] else [];
    assert Close(s, shared).records == own + end;
    OwnCloseKind(s, shared);
    EndKind(shared);
    hide Close, OwnClose;
    TwoKinds(own, end, s.kind, END_REQUEST, kind);
  }

  lemma OwnCloseKind(s: Side, shared: Shared)
    requires ValidSide(s)
    ensures forall i :: 0 <= i < |OwnClose(s, shared)| ==> OwnClose(s, shared)[i].kind == s.kind
  {
    hide EndRequestRecord, AlignInt8;
  }

  lemma EndKind(shared: Shared)
    ensures EndRequestRecord(shared.id, shared.appStatus, REQUEST_COMPLETE).kind == END_REQUEST
  {
    hide EndRequestBody;
  }

  /** Records of one kind and then of another. */
  lemma TwoKinds(own: seq<Record>, end: seq<Record>, a: byte, b: byte, kind: byte)
    requires a != b && forall i :: 0 <= i < |own| ==> own[i].kind == a
    requires forall i :: 0 <= i < |end| ==> end[i].kind == b
    ensures OfKind(own + end, kind) == if kind == a then own else if kind == b then end else []
  {
    hide OfKind;
    OfKindAppend(own, end, kind);
    OfKindAll(own, kind);
    OfKindAll(end, kind);
    assert own + [] == own && [] + end == end;
  }

  lemma SentByKind(s: Side, shared: Shared, e: Effect, kind: byte)
    requires forall r :: r in e.records ==> r.kind == s.kind
    ensures OfKind(e.records, kind) == if kind == s.kind then e.records else []
  {
    OfKindAll(e.records, kind);
  }

  // ------------------------------------------------------------- whole runs

  predicate StreamKept(p0: Pair, ops: seq<Op>, p: Pair, w: Which) {
    && p.Get(w).kind == p0.Get(w).kind && p.Get(w).cap == p0.Get(w).cap
    && p.Get(w).closed == ClosedIn(ops, w)
    && StreamShape(p.Get(w), p0.shared.id, OfKind(p.records, p0.Get(w).kind), Given(ops, w))
  }

  /** What is true of END_REQUEST after a run: there is none until both streams are closed; then
    * there is one, it is the last record, and it carries the status in force at that moment.
    */
  predicate EndKept(p0: Pair, ops: seq<Op>, p: Pair) {
    var both := ClosedIn(ops, Out) && ClosedIn(ops, Err);
    && p.shared.id == p0.shared.id
    && p.shared.appStatus == LastStatus(p0.shared.appStatus, ops)
    && p.shared.nWriters == 2 - (if ClosedIn(ops, Out) then 1 else 0) - (if ClosedIn(ops, Err) then 1 else 0)
    && (!both ==> OfKind(p.records, END_REQUEST) == [])
    && (both ==>
          var end := EndRequestRecord(p0.shared.id, FinalStatus(p0.shared.appStatus, ops), REQUEST_COMPLETE);
          OfKind(p.records, END_REQUEST) == [end] && p.records != [] && p.records[|p.records| - 1] == end)
  }

  predicate OnlyOurs(p0: Pair, p: Pair) {
    forall r :: r in p.records ==>
      ValidRecord(r) && r.id == p0.shared.id &&
          (r.kind == p0.out.kind || r.kind == p0.err.kind || r.kind == END_REQUEST)
  }

  lemma GivenAfter(ops: seq<Op>, op: Op, w: Which)
    ensures Given(ops + [op], w) ==
            Given(ops, w) + if op.PutOp? && op.which == w && !ClosedIn(ops, w) then op.bytes else []
    ensures ClosedIn(ops + [op], w) <==> ClosedIn(ops, w) || op == CloseOp(w)
  {
    assert (ops + [op])[..|ops + [op]| - 1] == ops;
  }

  /** A step by one stream, seen by that stream. */
  lemma SideStep(s: Side, shared: Shared, op: Op, rs: seq<Record>, given: seq<byte>)
    requires ValidSide(s) && s.kind != END_REQUEST && !op.StatusOp?
    requires StreamShape(s, shared.id, rs, given)
    ensures var e := EffectOn(s, shared, op);
            && e.side.kind == s.kind && e.side.cap == s.cap && (e.side.closed <==> s.closed || op.CloseOp?)
            && StreamShape(e.side, shared.id, rs + OfKind(e.records, s.kind),
                           given + if op.PutOp? && !s.closed then op.bytes else [])
  {
    hide EndRequestBody, AlignInt8;
    var e := EffectOn(s, shared, op);
    assert given + [] == given;
    if s.closed {
      assert e.records == [] && rs + [] == rs;
    } else {
      match op
      case PutOp(_, bytes) =>
        PutConserves(s, shared, bytes);
        SentByKind(s, shared, e, s.kind);
        PutKeeps(s, shared, rs, given, bytes);
      case FlushOp(_) =>
        SentByKind(s, shared, e, s.kind);
        FlushKeeps(s, shared, rs, given);
      case CloseOp(_) =>
        ClosingByKind(s, shared, s.kind);
        CloseKeeps(s, shared, rs, given);
    }
  }

  lemma OwnStep(p0: Pair, ops: seq<Op>, p: Pair, op: Op)
    requires ValidPair(p0) && ValidPair(p) && !op.StatusOp?
    requires StreamKept(p0, ops, p, op.which) && p.shared.id == p0.shared.id && p0.Get(op.which).kind != END_REQUEST
    ensures StreamKept(p0, ops + [op], Step(p, op), op.which)
  {
    hide OfKind, StreamShape, Given, EffectOn, ClosedIn;
    var w, s := op.which, p.Get(op.which);
    var e := EffectOf(p, op);
    GivenAfter(ops, op, w);
    OfKindAppend(p.records, e.records, s.kind);
    SideStep(s, p.shared, op, OfKind(p.records, s.kind), Given(ops, w));
  }

  /** A step by one stream, seen by the other. */
  lemma OtherStep(p0: Pair, ops: seq<Op>, p: Pair, op: Op, w: Which)
    requires ValidPair(p0) && ValidPair(p) && !op.StatusOp? && op.which != w
    requires StreamKept(p0, ops, p, w) && p0.Get(op.which).kind == p.Get(op.which).kind
    ensures StreamKept(p0, ops + [op], Step(p, op), w)
  {
    hide OfKind, StreamShape, Given, EffectOn, ClosedIn;
    var s, e := p.Get(op.which), EffectOf(p, op);
    GivenAfter(ops, op, w);
    OfKindAppend(p.records, e.records, p.Get(w).kind);
    NoneOfKind(s, p.shared, op, p.Get(w).kind);
    assert Given(ops, w) + [] == Given(ops, w);
    assert OfKind(p.records, p.Get(w).kind) + [] == OfKind(p.records, p.Get(w).kind);
  }

  lemma NoneOfKind(s: Side, shared: Shared, op: Op, kind: byte)
    requires ValidSide(s) && s.kind != END_REQUEST && !op.StatusOp? && kind != s.kind
    ensures kind != END_REQUEST ==> OfKind(EffectOn(s, shared, op).records, kind) == []
    ensures kind == END_REQUEST ==>
              OfKind(EffectOn(s, shared, op).records, kind) ==
              if op.CloseOp? && !s.closed && shared.nWriters == 1
              then [EndRequestRecord(shared.id, shared.appStatus, REQUEST_COMPLETE)] else []
  {
    var e := EffectOn(s, shared, op);
    if !s.closed {
      match op
      case PutOp(_, bytes) =>
        PutConserves(s, shared, bytes);
        SentByKind(s, shared, e, kind);
      case FlushOp(_) =>
        SentByKind(s, shared, e, kind);
      case CloseOp(_) =>
        ClosingByKind(s, shared, kind);
    }
  }

  lemma ClosedIsInert(s: Side, shared: Shared, op: Op)
    requires ValidSide(s) && !op.StatusOp? && s.closed
    ensures EffectOn(s, shared, op) == Effect(s, shared, [])
  {
  }

  lemma StatusAfter(initial: int, ops: seq<Op>, op: Op)
    ensures LastStatus(initial, ops + [op]) == if op.StatusOp? then op.status else LastStatus(initial, ops)
    ensures ClosedIn(ops + [op], Out) && ClosedIn(ops + [op], Err) ==>
              FinalStatus(initial, ops + [op]) ==
              if ClosedIn(ops, Out) && ClosedIn(ops, Err) then FinalStatus(initial, ops) else LastStatus(initial, ops)
  {
    assert (ops + [op])[..|ops + [op]| - 1] == ops;
  }

  /** Whether a step closes the last open stream. */
  predicate Ends(p: Pair, op: Op) {
    op.CloseOp? && !p.Get(op.which).closed && p.shared.nWriters == 1
  }

  /** What a step does to END_REQUEST and to the common part. */
  lemma EndOfStep(p: Pair, op: Op)
    requires ValidPair(p)
    ensures var q := Step(p, op);
            var end := EndRequestRecord(p.shared.id, p.shared.appStatus, REQUEST_COMPLETE);
            && OfKind(q.records, END_REQUEST) == OfKind(p.records, END_REQUEST) + (if Ends(p, op) then [end] else [])
            && (Ends(p, op) ==> q.records != [] && q.records[|q.records| - 1] == end)
            && (p.out.closed && p.err.closed ==> q.records == p.records)
            && q.shared.id == p.shared.id
            && q.shared.appStatus == (if op.StatusOp? then op.status else p.shared.appStatus)
            && q.shared.nWriters == p.shared.nWriters - if op.CloseOp? && !p.Get(op.which).closed then 1 else 0
  {
    hide OfKind, EndRequestRecord;
    assert OfKind(p.records, END_REQUEST) + [] == OfKind(p.records, END_REQUEST);
    if !op.StatusOp? {
      var s := p.Get(op.which);
      OfKindAppend(p.records, EffectOf(p, op).records, END_REQUEST);
      NoneOfKind(s, p.shared, op, END_REQUEST);
      SharedAfter(s, p.shared, op);
      hide EffectOn;
      assert p.records + [] == p.records;
    }
  }

  lemma SharedAfter(s: Side, shared: Shared, op: Op)
    requires ValidSide(s) && !op.StatusOp?
    ensures var e := EffectOn(s, shared, op);
            && (s.closed ==> e.records == [])
            && (op.CloseOp? && !s.closed && shared.nWriters == 1 ==>
                  e.records != [] && e.records[|e.records| - 1]
                      == EndRequestRecord(shared.id, shared.appStatus, REQUEST_COMPLETE))
            && e.shared == if op.CloseOp? && !s.closed then shared.(nWriters := shared.nWriters - 1) else shared
  {
    hide EndRequestRecord;
  }

  lemma EndStep(p0: Pair, ops: seq<Op>, p: Pair, op: Op)
    requires ValidPair(p0) && ValidPair(p) && EndKept(p0, ops, p)
    requires p.out.closed == ClosedIn(ops, Out) && p.err.closed == ClosedIn(ops, Err)
    ensures EndKept(p0, ops + [op], Step(p, op))
  {
    hide OfKind, FinalStatus, LastStatus, Step, ClosedIn, EndRequestRecord;
    StatusAfter(p0.shared.appStatus, ops, op);
    GivenAfter(ops, op, Out);
    GivenAfter(ops, op, Err);
    EndOfStep(p, op);
  }

  lemma OnlyOursStep(p0: Pair, p: Pair, op: Op)
    requires ValidPair(p0) && ValidPair(p) && OnlyOurs(p0, p) && p.shared.id == p0.shared.id
    requires p.out.kind == p0.out.kind && p.err.kind == p0.err.kind
    ensures OnlyOurs(p0, Step(p, op))
  {
    if !op.StatusOp? {
      var s := p.Get(op.which);
      if op.PutOp? && !s.closed {
        PutConserves(s, p.shared, op.bytes);
      }
    }
  }

  /** Everything kept over a run. */
  lemma {:induction false} RunKeeps(p0: Pair, ops: seq<Op>)
    requires Fresh(p0)
    ensures var p := Run(p0, ops);
            && StreamKept(p0, ops, p, Out) && StreamKept(p0, ops, p, Err)
            && EndKept(p0, ops, p) && OnlyOurs(p0, p)
  {
    if ops != [] {
      var before, op := ops[..|ops| - 1], ops[|ops| - 1];
      var p := Run(p0, before);
      assert ops == before + [op];
      RunKeeps(p0, before);
      EndStep(p0, before, p, op);
      OnlyOursStep(p0, p, op);
      if op.StatusOp? {
        GivenAfter(before, op, Out);
        GivenAfter(before, op, Err);
        assert Given(before, Out) + [] == Given(before, Out) && Given(before, Err) + [] == Given(before, Err);
      } else {
        OwnStep(p0, before, p, op);
        OtherStep(p0, before, p, op, if op.which == Out then Err else Out);
      }
      hide StreamKept, EndKept, OnlyOurs;
    }
  }

  /** The main result about writing. After any interleaving of operations on the two streams, the
    * bytes on the wire parse as whole records, all of this request. The records of each stream
    * carry exactly what it was given before it was closed, then one empty record; END_REQUEST
    * comes once both streams are closed, once, last, with the status set before that, and says that the
    * request is complete.
    */
  lemma WireIsWellFormed(p0: Pair, ops: seq<Op>)
    requires Fresh(p0)
    ensures var p := Run(p0, ops);
            && ValidRecords(p.records) && Parse(EncodeAll(p.records)) == Some(p.records)
            && StreamKept(p0, ops, p, Out) && StreamKept(p0, ops, p, Err)
            && EndKept(p0, ops, p) && OnlyOurs(p0, p)
            && (ClosedIn(ops, Out) ==> Contents(OfKind(p.records, p0.out.kind)) == Given(ops, Out))
            && (ClosedIn(ops, Err) ==> Contents(OfKind(p.records, p0.err.kind)) == Given(ops, Err))
            && (ClosedIn(ops, Out) && ClosedIn(ops, Err) ==>
                  && p.records != []
                  && var last := p.records[|p.records| - 1];
                     && last.kind == 3 && last.id == p0.shared.id && |last.content| == 8 && last.content[4] == 0
                     && last.content[0] as int * 0x100_0000 + last.content[1] as int * 0x1_0000
                        + last.content[2] as int * 0x100 + last.content[3] as int
                        == FinalStatus(p0.shared.appStatus, ops) % 0x1_0000_0000)
  {
    RunKeeps(p0, ops);
    var p := Run(p0, ops);
    if ClosedIn(ops, Out) && ClosedIn(ops, Err) {
      EndRequestCarries(FinalStatus(p0.shared.appStatus, ops), REQUEST_COMPLETE);
    }
    hide EndRequestBody;
    ParseEncode(p.records);
    AllContents(p.out, p0.shared.id, OfKind(p.records, p0.out.kind), Given(ops, Out));
    AllContents(p.err, p0.shared.id, OfKind(p.records, p0.err.kind), Given(ops, Err));
  }

  lemma AllContents(s: Side, id: uint16, rs: seq<Record>, given: seq<byte>)
    requires StreamShape(s, id, rs, given)
    ensures s.closed ==> Contents(rs) == given
  {
    if s.closed && !(s.kind == STDERR && given == []) {
      assert Contents(rs) == Contents(rs[..|rs| - 1]) + [];
    }
  }

  /** Once both streams are closed nothing more is written. */
  lemma NothingAfterEnd(p0: Pair, ops: seq<Op>, op: Op)
    requires Fresh(p0) && ClosedIn(ops, Out) && ClosedIn(ops, Err)
    ensures Run(p0, ops + [op]).records == Run(p0, ops).records
  {
    hide EffectOn, StreamShape, EndKept, OnlyOurs, ClosedIn;
    RunKeeps(p0, ops);
    var p := Run(p0, ops);
    if !op.StatusOp? {
      ClosedIsInert(p.Get(op.which), p.shared, op);
      assert p.records + [] == p.records;
    }
    assert (ops + [op])[..|ops + [op]| - 1] == ops;
  }
}
