/** Runs of the two output streams of a request as objects, and the way back: what a writer
  * puts on a wire, a reader of the same stream gets.
  */
module WriterRuns {
  import opened Basics
  import opened FcgiProtocol
  import opened FcgiConnection
  import opened WriterSpec
  import opened WriterTheorems
  import Writer
  import ReaderSpec
  import ReaderTheorems

  /** The streams are those of one request, and do not share a buffer. */
  ghost predicate Together(out: Writer.Stream, err: Writer.Stream)
    reads out, err, out.req.conn, err.req.conn
  {
    && out != err && out.buff != err.buff && out.req == err.req
    && out.Valid() && err.Valid()
    && out.kind != err.kind && out.kind != END_REQUEST && err.kind != END_REQUEST
  }

  /** The objects are in the state `p`, reached since the connection had accepted `before`; or a
    * write has failed somewhere inside the records of `p`.
    */
  ghost predicate Tracks(out: Writer.Stream, err: Writer.Stream, before: seq<byte>, p: Pair)
    requires Together(out, err)
    reads out, err, out.buff, err.buff, out.req, out.req.conn
  {
    && ValidPair(p) && ValidRecords(p.records)
    && if out.fcgiErrno == 0 && err.fcgiErrno == 0 then
         && p.out == out.Side() && p.err == err.Side() && p.shared == out.Common()
         && out.req.conn.outgoing == before + EncodeAll(p.records)
       else out.Stuck() && out.req.conn.outgoing <= before + EncodeAll(p.records)
  }

  lemma Extends(before: seq<byte>, records: seq<Record>, more: seq<Record>)
    requires ValidRecords(records) && ValidRecords(more)
    ensures ValidRecords(records + more)
    ensures before + EncodeAll(records) + EncodeAll(more) == before + EncodeAll(records + more)
  {
    EncodeAllAppend(records, more);
    Associate(before, EncodeAll(records), EncodeAll(more));
    hide EncodeAll;
  }

  /** One operation on one stream. */
  method PerformOn(stream: Writer.Stream, op: Op) returns (r: int)
    requires stream.Valid() && !op.StatusOp?
    modifies stream, stream.buff, stream.req`nWriters, stream.req.conn`outgoing
    ensures stream.Valid() && old(stream.req.conn.outgoing) <= stream.req.conn.outgoing
    ensures old(stream.fcgiErrno) != 0 ==> stream.fcgiErrno != 0
    ensures ValidRecords(EffectOn(old(stream.Side()), old(stream.Common()), op).records)
    ensures stream.Did(old(stream.req.conn.outgoing), EffectOn(old(stream.Side()), old(stream.Common()), op))
    ensures stream.Common() == EffectOn(old(stream.Side()), old(stream.Common()), op).shared
    ensures op.CloseOp? ==> stream.wasFCloseCalled && r == if stream.fcgiErrno == 0 then 0 else Writer.EOF
  {
    hide Put, Flushed, CloseRecords, EncodeAll;
    ghost var side, shared := stream.Side(), stream.Common();
    EffectIsValid(side, shared, op);
    match op
    case PutOp(_, bytes) =>
      if |bytes| == 1 {
        r := stream.PutChar(bytes[0]);
        assert bytes == [bytes[0]];
      } else {
        r := stream.PutStr(bytes, []);
      }
    case FlushOp(_) =>
      r := stream.FFlush();
    case CloseOp(_) =>
      r := stream.FClose();
  }

  lemma EffectIsValid(side: Side, shared: Shared, op: Op)
    requires ValidSide(side) && !op.StatusOp?
    ensures ValidRecords(EffectOn(side, shared, op).records)
    ensures !op.CloseOp? ==> EffectOn(side, shared, op).shared == shared
  {
  }

  /** The move of the pair of streams, when one of them has moved by the effect `e` and `planned`
    * is the effect its state in the run calls for.
    */
  lemma Moved(stream: Writer.Stream, before: seq<byte>, records: seq<Record>, e: Effect, planned: Effect,
              was: seq<byte>, stuck: bool)
    requires stream.Valid() && ValidRecords(records) && ValidRecords(e.records) && ValidRecords(planned.records)
    requires stream.Did(was, e) && was <= stream.req.conn.outgoing
    requires if stuck then !Accepts(stream.req.conn.limit, was, 1) && was <= before + EncodeAll(records)
             else was == before + EncodeAll(records) && e == planned
    ensures ValidRecords(records + planned.records)
    ensures !stuck && stream.fcgiErrno == 0 ==>
              stream.Side() == e.side && stream.req.conn.outgoing == before + EncodeAll(records + planned.records)
    ensures stuck || stream.fcgiErrno != 0 ==>
              stream.Stuck() && stream.req.conn.outgoing <= before + EncodeAll(records + planned.records)
  {
    Extends(before, records, planned.records);
    hide EncodeAll;
    if stuck {
      assert stream.req.conn.outgoing == was;
    }
  }

  method PerformOut(out: Writer.Stream, err: Writer.Stream, op: Op, ghost before: seq<byte>, ghost p: Pair)
    returns (r: int)
    requires Together(out, err) && Tracks(out, err, before, p) && !op.StatusOp? && op.which == Out
    modifies out, err, out.buff, err.buff, out.req, out.req.conn`outgoing
    ensures Together(out, err) && Tracks(out, err, before, Step(p, op))
    ensures op.CloseOp? ==> out.wasFCloseCalled && r == if out.fcgiErrno == 0 then 0 else Writer.EOF
    ensures err.wasFCloseCalled == old(err.wasFCloseCalled) && err.fcgiErrno == old(err.fcgiErrno)
  {
    hide EffectOn, EncodeAll;
    ghost var was, stuck := out.req.conn.outgoing, out.fcgiErrno != 0 || err.fcgiErrno != 0;
    ghost var e := EffectOn(out.Side(), out.Common(), op);
    r := PerformOn(out, op);
    EffectIsValid(p.out, p.shared, op);
    Moved(out, before, p.records, e, EffectOf(p, op), was, stuck);
  }

  method PerformErr(out: Writer.Stream, err: Writer.Stream, op: Op, ghost before: seq<byte>, ghost p: Pair)
    returns (r: int)
    requires Together(out, err) && Tracks(out, err, before, p) && !op.StatusOp? && op.which == Err
    modifies out, err, out.buff, err.buff, out.req, out.req.conn`outgoing
    ensures Together(out, err) && Tracks(out, err, before, Step(p, op))
    ensures op.CloseOp? ==> err.wasFCloseCalled && r == if err.fcgiErrno == 0 then 0 else Writer.EOF
    ensures out.wasFCloseCalled == old(out.wasFCloseCalled) && out.fcgiErrno == old(out.fcgiErrno)
  {
    hide EffectOn, EncodeAll;
    ghost var was, stuck := out.req.conn.outgoing, out.fcgiErrno != 0 || err.fcgiErrno != 0;
    ghost var e := EffectOn(err.Side(), err.Common(), op);
    r := PerformOn(err, op);
    EffectIsValid(p.err, p.shared, op);
    Moved(err, before, p.records, e, EffectOf(p, op), was, stuck);
  }

  /** One operation, on the stream it names. */
  method Perform(out: Writer.Stream, err: Writer.Stream, op: Op, ghost before: seq<byte>, ghost p: Pair)
    returns (r: int)
    requires Together(out, err) && Tracks(out, err, before, p)
    modifies out, err, out.buff, err.buff, out.req, out.req.conn`outgoing
    ensures Together(out, err) && Tracks(out, err, before, Step(p, op))
    ensures op == CloseOp(Out) ==> out.wasFCloseCalled && r == if out.fcgiErrno == 0 then 0 else Writer.EOF
    ensures op == CloseOp(Err) ==> err.wasFCloseCalled && r == if err.fcgiErrno == 0 then 0 else Writer.EOF
    ensures op == CloseOp(Out) ==>
        err.wasFCloseCalled == old(err.wasFCloseCalled) && err.fcgiErrno == old(err.fcgiErrno)
  {
    hide EffectOn, EncodeAll;
    if op.StatusOp? {
      out.SetExitStatus(op.status);
      r := 0;
      assert err.Valid();
    } else if op.which == Out {
      r := PerformOut(out, err, op, before, p);
    } else {
      r := PerformErr(out, err, op, before, p);
    }
  }

  /** Any run of operations on the two streams, in any order. On a connection that never fails
    * the wire then holds exactly the records of the run; otherwise a prefix of them.
    */
  method PerformAll(out: Writer.Stream, err: Writer.Stream, ops: seq<Op>, ghost before: seq<byte>, ghost p: Pair)
    requires Together(out, err) && Tracks(out, err, before, p)
    modifies out, err, out.buff, err.buff, out.req, out.req.conn`outgoing
    ensures Together(out, err) && Tracks(out, err, before, WriterTheorems.Run(p, ops))
    ensures ValidRecords(WriterTheorems.Run(p, ops).records)
    ensures out.req.conn.outgoing <= before + EncodeAll(WriterTheorems.Run(p, ops).records)
    ensures out.req.conn.limit == None ==>
              out.req.conn.outgoing == before + EncodeAll(WriterTheorems.Run(p, ops).records)
  {
    hide EncodeAll, Step;
    assert ops[..0] == [];
    var i := 0;
    while i < |ops|
      invariant i <= |ops| && Together(out, err) && Tracks(out, err, before, WriterTheorems.Run(p, ops[..i]))
    {
      assert ops[..i + 1][..i] == ops[..i] && ops[..i + 1][i] == ops[i];
      var r := Perform(out, err, ops[i], before, WriterTheorems.Run(p, ops[..i]));
      i := i + 1;
    }
    assert ops[..i] == ops;
  }

  /** `FCGX_Finish_r`: close the error stream, then the output stream, and say whether to close
    * the connection. The error code of the input stream is a parameter.
    */
  method Finish(out: Writer.Stream, err: Writer.Stream, inErrno: int, ghost before: seq<byte>, ghost p: Pair)
    returns (close: bool)
    requires Together(out, err) && Tracks(out, err, before, p)
    modifies out, err, out.buff, err.buff, out.req, out.req.conn`outgoing
    ensures Together(out, err) && out.wasFCloseCalled && err.wasFCloseCalled
    ensures Tracks(out, err, before, Step(Step(p, CloseOp(Err)), CloseOp(Out)))
    ensures close == (!old(out.req.keepConnection) || out.fcgiErrno != 0 || err.fcgiErrno != 0 || inErrno != 0)
  {
    hide Step;
    close := !out.req.keepConnection;
    var r := Perform(out, err, CloseOp(Err), before, p);
    close := close || r != 0;
    r := Perform(out, err, CloseOp(Out), before, Step(p, CloseOp(Err)));
    close := close || r != 0 || inErrno != 0;
  }

  // ------------------------------------------------------------ there and back

  lemma {:induction false} SameContents(kind: byte, req: FcgiConnection.Begin, rs: seq<Record>)
    requires forall r :: r in rs ==> ReaderTheorems.Own(kind, req, r)
    ensures ReaderTheorems.Contents(kind, req, rs) == WriterTheorems.Contents(rs)
  {
    if rs != [] {
      var first, rest := [rs[0]], rs[1..];
      SameContents(kind, req, rest);
      assert rs == first + rest;
      ContentsAppend(first, rest);
      assert first[..0] == [] && WriterTheorems.Contents([]) + rs[0].content == rs[0].content;
    }
  }

  /** Only the stream `Out` is used. */
  predicate OutOnly(ops: seq<Op>) {
    forall op :: op in ops ==> op.StatusOp? || op.which == Out
  }

  lemma {:induction false} ErrUnused(ops: seq<Op>)
    requires OutOnly(ops)
    ensures Given(ops, Err) == [] && !ClosedIn(ops, Err)
  {
    if ops != [] {
      ErrUnused(ops[..|ops| - 1]);
    }
  }

  lemma {:induction false} AllOfKind(rs: seq<Record>, a: byte, b: byte, c: byte)
    requires forall i :: 0 <= i < |rs| ==> rs[i].kind == a || rs[i].kind == b || rs[i].kind == c
    requires OfKind(rs, b) == [] && OfKind(rs, c) == []
    ensures OfKind(rs, a) == rs
  {
    if rs != [] {
      LastOfKind(rs, a);
      LastOfKind(rs, b);
      LastOfKind(rs, c);
      hide OfKind;
      assert rs == rs[..|rs| - 1] + [rs[|rs| - 1]];
      AllOfKind(rs[..|rs| - 1], a, b, c);
    }
  }

  lemma LastOfKind(rs: seq<Record>, k: byte)
    requires rs != []
    ensures OfKind(rs, k) == OfKind(rs[..|rs| - 1], k) + (if rs[|rs| - 1].kind == k then [rs[|rs| - 1]] else [])
  {
  }

  lemma NoData(s: Side, id: uint16, rs: seq<Record>)
    requires StreamShape(s, id, rs, []) && !s.closed
    ensures rs == []
  {
    DataHasContent(s, id, rs);
  }

  lemma DataHasContent(s: Side, id: uint16, rs: seq<Record>)
    requires forall r :: r in rs ==> DataShape(s, id, r)
    ensures rs != [] ==> WriterTheorems.Contents(rs) != []
  {
    if rs != [] {
      assert DataShape(s, id, rs[|rs| - 1]);
    }
  }

  /** Writer and reader undo each other. Whatever a stream is given before it is closed, in
    * whatever pieces and with whatever flushes, a reader of the same stream of the same request
    * gets back, and then end-of-file. (A stream closed unused writes its end all the same, unless
    * it is an error stream.)
    */
  lemma WrittenIsRead(p0: Pair, ops: seq<Op>, env: ReaderSpec.Env, req: FcgiConnection.Begin, out: seq<byte>,
                      tail: seq<byte>)
    requires Fresh(p0) && OutOnly(ops) && ClosedIn(ops, Out)
    requires p0.out.kind != BEGIN_REQUEST && p0.shared.id != NULL_REQUEST_ID
    requires p0.out.kind == STDERR ==> Given(ops, Out) != []
    requires env.kind == p0.out.kind && req.id == p0.shared.id && req.begun && Accepts(env.limit, out, 0)
    ensures var p := WriterTheorems.Run(p0, ops);
            && ValidRecords(p.records)
            && var got := ReaderSpec.Run(env, ReaderSpec.NO_FRAME, req, out, EncodeAll(p.records) + tail);
               got.bytes == Given(ops, Out) && got.end == ReaderSpec.Eof && got.rest == tail && got.out == out
  {
    var p := WriterTheorems.Run(p0, ops);
    RunKeeps(p0, ops);
    ErrUnused(ops);
    NoData(p.err, p0.shared.id, OfKind(p.records, p0.err.kind));
    AllOfKind(p.records, p0.out.kind, p0.err.kind, END_REQUEST);
    var n := |p.records| - 1;
    ReadBack(p.out, p0.shared.id, p.records[..n], p.records[n], env, req, out, tail);
    assert p.records == p.records[..n] + [p.records[n]];
    hide ReaderSpec.Run;
  }

  lemma ReadBack(s: Side, id: uint16, data: seq<Record>, end: Record, env: ReaderSpec.Env, req: FcgiConnection.Begin,
                 out: seq<byte>, tail: seq<byte>)
    requires ValidRecords(data) && (forall r :: r in data ==> DataShape(s, id, r))
    requires end == Record(s.kind, id, [], [], 0)
    requires s.kind != BEGIN_REQUEST && id != NULL_REQUEST_ID
    requires env.kind == s.kind && req.id == id && req.begun && Accepts(env.limit, out, 0)
    ensures ValidRecords(data + [end])
    ensures var got := ReaderSpec.Run(env, ReaderSpec.NO_FRAME, req, out, EncodeAll(data + [end]) + tail);
            got.bytes == WriterTheorems.Contents(data) && got.end == ReaderSpec.Eof && got.rest == tail &&
                got.out == out
  {
    DataIsAcceptable(s, id, data, req);
    hide DataShape;
    SameContents(env.kind, req, data);
    NoReplies(env.kind, req, data, false);
    NothingSwallowed(env.kind, req, data);
    EncodeAllAppend(data, [end]);
    assert EncodeAll([end]) == Encode(end) + [] == Encode(end);
    hide ReaderTheorems.Swallows, ReaderTheorems.Leaks, ReaderTheorems.AllAcceptable, ReaderTheorems.Contents,
        ReaderTheorems.Replies;
    hide ReaderSpec.Run, WriterTheorems.Contents, EncodeAll;
    ReaderTheorems.ReaderDelivers(env, req, data, out, end, tail);
    assert end.padding + tail == tail && out + [] == out;
  }

  lemma {:induction false} NoReplies(kind: byte, req: FcgiConnection.Begin, rs: seq<Record>, skip: bool)
    requires ReaderTheorems.AllAcceptable(kind, req, rs, skip)
    requires forall r :: r in rs ==> ReaderTheorems.Own(kind, req, r)
    ensures ReaderTheorems.Replies(kind, req, rs, skip) == []
  {
    if rs != [] {
      assert ReaderTheorems.Own(kind, req, rs[0]);
      NoReplies(kind, req, rs[1..], ReaderTheorems.SkipAfter(req, rs[0], skip));
    }
  }

  lemma NothingSwallowed(kind: byte, req: FcgiConnection.Begin, rs: seq<Record>)
    requires forall r :: r in rs ==> ReaderTheorems.Own(kind, req, r)
    ensures !ReaderTheorems.Swallows(kind, req, rs, false) && !ReaderTheorems.Leaks(req, rs, false)
  {
    forall i | 0 <= i < |rs|
      ensures !ReaderTheorems.Foreign(req, rs[i]) && !ReaderTheorems.Unknown(rs[i])
    {
      assert rs[i] in rs;
    }
  }

  lemma {:induction false} DataIsAcceptable(s: Side, id: uint16, data: seq<Record>, req: FcgiConnection.Begin)
    requires ValidRecords(data) && (forall r :: r in data ==> DataShape(s, id, r))
    requires s.kind != BEGIN_REQUEST && id != NULL_REQUEST_ID && req.id == id
    ensures ReaderTheorems.AllAcceptable(s.kind, req, data, false)
    ensures forall r :: r in data ==> ReaderTheorems.Own(s.kind, req, r)
  {
    if data != [] {
      assert data[0] in data && data == [data[0]] + data[1..];
      DataIsAcceptable(s, id, data[1..], req);
    }
  }
}
