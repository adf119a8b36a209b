/** The output side of a FastCGI stream: bytes collect in a buffer behind room for a record
  * header, and `EmptyBuffProc` turns the buffer into a record. Closing reuses the same buffer
  * and the same two methods in raw mode, without the encapsulation.
  */
module Writer {
  import opened Basics
  import opened FcgiProtocol
  import opened FcgiConnection
  import opened WriterSpec

  const EOF := -1

  lemma CloseRecordsFollow(side: Side, shared: Shared, out: seq<byte>)
    requires ValidSide(side) && !side.closed
    ensures out + EncodeAll(Flushed(side, shared.id)) + EncodeAll(CloseRecords(side, shared))
            == out + EncodeAll(Close(side, shared).records)
  {
    var flushed, closing := Flushed(side, shared.id), CloseRecords(side, shared);
    EncodeAllAppend(flushed, closing);
    Associate(out, EncodeAll(flushed), EncodeAll(closing));
    hide EncodeAll, Flushed, CloseRecords;
  }

  lemma CloseBytes(side: Side, shared: Shared, total: seq<byte>)
    ensures var header := MakeHeader(side.kind, shared.id, 0, 0);
            var record := MakeHeader(END_REQUEST, shared.id, 8, 0) + EndRequestBody(shared.appStatus, REQUEST_COMPLETE);
            var first := if side.kind == STDERR && side.pending == [] && !side.written then total else total + header;
            (if shared.nWriters == 1 then first + record else first) == total + EncodeAll(CloseRecords(side, shared))
  {
    var r1, r2 := Record(side.kind, shared.id, [], [], 0),
        EndRequestRecord(shared.id, shared.appStatus, REQUEST_COMPLETE);
    EncodeOne(r1);
    EncodeOne(r2);
    EncodeAllAppend([r1], [r2]);
    assert Encode(r1) == MakeHeader(side.kind, shared.id, 0, 0);
    assert Encode(r2) == MakeHeader(END_REQUEST, shared.id, 8, 0) + EndRequestBody(shared.appStatus, REQUEST_COMPLETE);
    hide Encode, EncodeAll, EndRequestBody;
    Associate(total, Encode(r1), Encode(r2));
    assert [] + [r2] == [r2] && [r1] + [] == [r1];
    assert EncodeAll([]) == [] && total + [] == total by { EncodeNone(); }
  }

  lemma EncodeNone()
    ensures EncodeAll([]) == []
  {
  }

  lemma Slices(total: seq<byte>, str: seq<byte>, n: nat, m: nat)
    requires n + m <= |str|
    ensures total + str[..n] + str[n..n + m] == total + str[..n + m]
    ensures str[n..][m..] == str[n + m..] && str[n..][..m] == str[n..n + m]
  {
  }

  lemma ThenThen(a: seq<Record>, b: seq<Record>, e: Effect)
    ensures Then(a, Then(b, e)) == Then(a + b, e)
  {
    assert a + (b + e.records) == a + b + e.records;
  }

  class Stream {
    const req: Request
    const buff: array<byte>
    const kind: byte
    var wrNext: nat
    var stop: nat
    var isClosed: bool
    var wasFCloseCalled: bool
    var fcgiErrno: int
    var isAnythingWritten: bool
    var rawWrite: bool

    /** `NewStream` for a writer; the buffer is given. */
    constructor (req: Request, buff: array<byte>, kind: byte)
      requires req.conn.Valid() && 24 <= buff.Length <= 0x1_0000 && buff.Length % 8 == 0
      ensures this.req == req && this.buff == buff && this.kind == kind
      ensures Valid() && fcgiErrno == 0
      ensures Side() == WriterSpec.Side(kind, buff.Length - HEADER_LEN, [], false, false)
    {
      this.req, this.buff, this.kind := req, buff, kind;
      wrNext, stop := HEADER_LEN, buff.Length;
      isClosed, wasFCloseCalled, fcgiErrno := false, false, 0;
      isAnythingWritten, rawWrite := false, false;
    }

    ghost predicate Core()
      reads this, req.conn
    {
      && req.conn.Valid()
      && 24 <= buff.Length <= 0x1_0000 && buff.Length % 8 == 0
      && wrNext <= stop <= buff.Length
    }

    /** Between calls: open, with a header's room kept, or closed. A stream that has failed
      * reports itself closed, and its connection takes nothing more.
      */
    ghost predicate Valid()
      reads this, req.conn
    {
      && Core()
      && (isClosed <==> fcgiErrno != 0 || wasFCloseCalled)
      && (fcgiErrno != 0 ==> Stuck())
      && if wasFCloseCalled then wrNext == stop else Open()
    }

    ghost predicate Open()
      reads this
    {
      !rawWrite && HEADER_LEN <= wrNext && stop == buff.Length
    }

    ghost function Side(): Side
      requires Core()
      reads this, buff, req.conn
    {
      WriterSpec.Side(kind, buff.Length - HEADER_LEN,
                      if wasFCloseCalled || wrNext < HEADER_LEN then [] else buff[HEADER_LEN..wrNext],
                      isAnythingWritten || wasFCloseCalled, wasFCloseCalled)
    }

    ghost function Common(): Shared
      reads req
    {
      Shared(req.requestId, req.appStatus, req.nWriters)
    }

    /** The connection takes nothing more. */
    ghost predicate Stuck()
      reads req.conn
    {
      !Accepts(req.conn.limit, req.conn.outgoing, 1)
    }

    /** Everything meant for the wire so far is `total`: it has been written or is in the buffer,
      * or the connection failed somewhere inside it.
      */
    ghost predicate Heading(total: seq<byte>)
      requires wrNext <= buff.Length
      reads this, buff, req.conn
    {
      if fcgiErrno == 0 then !isClosed && req.conn.outgoing + buff[..wrNext] == total
      else isClosed && Stuck() && req.conn.outgoing <= total
    }

    /** The effect `e` has happened, or the connection failed somewhere inside its records. */
    ghost predicate Did(before: seq<byte>, e: Effect)
      requires Core() && ValidRecords(e.records)
      reads this, buff, req.conn
    {
      if fcgiErrno == 0 then Side() == e.side && req.conn.outgoing == before + EncodeAll(e.records)
      else Stuck() && req.conn.outgoing <= before + EncodeAll(e.records)
    }

    /** `SetError`: the first error is kept. */
    method SetError(code: int)
      modifies this`fcgiErrno, this`isClosed
      ensures isClosed && fcgiErrno == if old(fcgiErrno) == 0 then code else old(fcgiErrno)
    {
      if fcgiErrno == 0 {
        fcgiErrno := code;
      }
      isClosed := true;
    }

    /** The write at the end of `EmptyBuffProc`. */
    method WriteBuffer(ghost total: seq<byte>) returns (ok: bool)
      requires Core() && Heading(total)
      modifies this`wrNext, this`isAnythingWritten, this`fcgiErrno, this`isClosed, req.conn`outgoing
      ensures old(req.conn.outgoing) <= req.conn.outgoing
      ensures old(fcgiErrno) != 0 ==> fcgiErrno != 0
      ensures Core() && Heading(total)
      ensures ok == (fcgiErrno == 0 || old(wrNext) == 0)
      ensures wrNext == if ok then 0 else old(wrNext)
      ensures fcgiErrno == 0 <==> old(fcgiErrno) == 0 && Accepts(req.conn.limit, old(req.conn.outgoing), old(wrNext))
      ensures isAnythingWritten == (old(isAnythingWritten) || old(wrNext) != 0)
    {
      if wrNext != 0 {
        isAnythingWritten := true;
        var status := req.conn.WriteItAll(buff, wrNext);
        if status < 0 {
          SetError(req.conn.writeErrno);
          return false;
        }
        wrNext := 0;
      }
      return true;
    }

    /** The first part of `EmptyBuffProc`: make the buffer a record, or empty. */
    method Encapsulate()
      requires Core() && Open() && !wasFCloseCalled
      modifies this`wrNext, buff
      ensures Core()
      ensures buff[..wrNext] == EncodeAll(Flushed(old(Side()), req.requestId))
      ensures wrNext == 0 <==> old(Side()).pending == []
      ensures wrNext == 0 || HEADER_LEN <= wrNext
      ensures old(wrNext) == buff.Length ==> wrNext == buff.Length
    {
      var cLen := wrNext - HEADER_LEN;
      if cLen > 0 {
        var eLen := AlignInt8(cLen);
        ghost var content := buff[HEADER_LEN..wrNext];
        forall i | wrNext <= i < wrNext + (eLen - cLen) {
          buff[i] := 0;
        }
        wrNext := wrNext + (eLen - cLen);
        var header := MakeHeader(kind, req.requestId, cLen, eLen - cLen);
        forall i | 0 <= i < HEADER_LEN {
          buff[i] := header[i];
        }
        IsRecord(header, content);
      } else {
        wrNext := 0;
      }
    }

    lemma IsRecord(header: seq<byte>, content: seq<byte>)
      requires content != [] && |content| <= MAX_CONTENT && wrNext == HEADER_LEN + AlignInt8(|content|) <= buff.Length
      requires header == MakeHeader(kind, req.requestId, |content|, AlignInt8(|content|) - |content|)
      requires buff[..HEADER_LEN] == header && buff[HEADER_LEN..HEADER_LEN + |content|] == content
      requires forall i :: HEADER_LEN + |content| <= i < wrNext ==> buff[i] == 0
      ensures buff[..wrNext] == EncodeAll([DataRecord(kind, req.requestId, content)])
    {
      var r := DataRecord(kind, req.requestId, content);
      assert Encode(r) == header + content + r.padding;
      assert EncodeAll([r]) == Encode(r) + EncodeAll([]);
      assert buff[..wrNext]
          == buff[..HEADER_LEN] + buff[HEADER_LEN..HEADER_LEN + |content|] + buff[HEADER_LEN + |content|..wrNext];
    }

    /** The state in which closing records are put together. */
    ghost predicate Raw(total: seq<byte>)
      reads this, buff, req.conn
    {
      Core() && rawWrite && !wasFCloseCalled && stop == buff.Length && Heading(total)
    }

    /** `EmptyBuffProc`. In raw mode the buffer is just written. Otherwise it is made a record
      * first, and with `doClose` the closing records follow it.
      */
    method EmptyBuffProc(doClose: bool, ghost total: seq<byte>)
      requires if rawWrite then !doClose && Raw(total) else Valid() && !wasFCloseCalled && (doClose || fcgiErrno == 0)
      modifies this, buff, req`nWriters, req.conn`outgoing
      ensures old(req.conn.outgoing) <= req.conn.outgoing
      ensures old(fcgiErrno) != 0 ==> fcgiErrno != 0
      ensures Core() && !wasFCloseCalled && stop == buff.Length && rawWrite == (old(rawWrite) || doClose)
      ensures old(rawWrite) ==> Raw(total) && (fcgiErrno == 0 ==> wrNext == 0)
      ensures !old(rawWrite) && !doClose ==> Valid() && Did(old(req.conn.outgoing), Flush(old(Side()), old(Common())))
      ensures doClose ==> Raw(old(req.conn.outgoing) + EncodeAll(Close(old(Side()), old(Common())).records))
      ensures doClose ==> (fcgiErrno == 0 ==> wrNext == 0)
      ensures if fcgiErrno == 0 then wrNext <= HEADER_LEN else !doClose && old(wrNext == stop) ==> wrNext == stop
      ensures req.nWriters == old(req.nWriters) - if doClose then 1 else 0
      decreases if doClose then 7 else 1
    {
      hide EncodeAll, Flushed, CloseRecords;
      ghost var all := Prepare(doClose, total);
      Send(all);
    }

    /** What comes before the write: the record, and the closing records. */
    method Prepare(doClose: bool, ghost total: seq<byte>) returns (ghost all: seq<byte>)
      requires if rawWrite then !doClose && Raw(total) else Valid() && !wasFCloseCalled && (doClose || fcgiErrno == 0)
      modifies this, buff, req`nWriters, req.conn`outgoing
      ensures old(req.conn.outgoing) <= req.conn.outgoing
      ensures old(fcgiErrno) != 0 ==> fcgiErrno != 0
      ensures Core() && !wasFCloseCalled && stop == buff.Length && Heading(all) &&
          rawWrite == (old(rawWrite) || doClose)
      ensures old(rawWrite) ==> all == total && wrNext == old(wrNext) && fcgiErrno == old(fcgiErrno)
      ensures !doClose ==>
              && req.conn.outgoing == old(req.conn.outgoing) && fcgiErrno == old(fcgiErrno)
              && isAnythingWritten == old(isAnythingWritten)
      ensures !old(rawWrite) && !doClose ==>
                && all == old(req.conn.outgoing) + EncodeAll(Flushed(old(Side()), req.requestId))
                && (wrNext == 0 <==> old(Side()).pending == []) && (wrNext == 0 || HEADER_LEN <= wrNext)
                && (old(wrNext == stop) ==> wrNext == stop)
      ensures doClose ==> all == old(req.conn.outgoing) + EncodeAll(Close(old(Side()), old(Common())).records)
      ensures req.nWriters == old(req.nWriters) - if doClose then 1 else 0
      decreases if doClose then 6 else 0
    {
      ghost var side, shared, out := Side(), Common(), req.conn.outgoing;
      all := total;
      if !rawWrite {
        Encapsulate();
        all := out + EncodeAll(Flushed(side, shared.id));
        hide EncodeAll, Flushed;
      }
      if doClose {
        CloseRecordsFollow(side, shared, out);
        WriteCloseRecords(all, side);
        all := all + EncodeAll(CloseRecords(side, shared));
      }
    }

    /** The second part of `EmptyBuffProc`: write the buffer, and keep a header's room again. */
    method Send(ghost total: seq<byte>)
      requires Core() && !wasFCloseCalled && stop == buff.Length && Heading(total)
      modifies this`wrNext, this`isAnythingWritten, this`fcgiErrno, this`isClosed, req.conn`outgoing
      ensures old(req.conn.outgoing) <= req.conn.outgoing
      ensures old(fcgiErrno) != 0 ==> fcgiErrno != 0
      ensures Core()
      ensures fcgiErrno == 0 ==> !isClosed && req.conn.outgoing == total && wrNext == if rawWrite then 0 else HEADER_LEN
      ensures fcgiErrno != 0 ==> isClosed && Stuck() && req.conn.outgoing <= total
      ensures fcgiErrno != 0 && old(wrNext) != 0 ==> wrNext == old(wrNext)
      ensures fcgiErrno != 0 && old(wrNext) == 0 ==> wrNext == if rawWrite then 0 else HEADER_LEN
      ensures fcgiErrno == 0 ==> old(fcgiErrno) == 0
      ensures isAnythingWritten == (old(isAnythingWritten) || old(wrNext) != 0)
    {
      var ok := WriteBuffer(total);
      if !ok {
        return;
      }
      if !rawWrite {
        wrNext := wrNext + HEADER_LEN;
      }
    }

    /** `WriteCloseRecords` */
    method WriteCloseRecords(ghost total: seq<byte>, ghost side: Side)
      requires Core() && !rawWrite && !wasFCloseCalled && stop == buff.Length && Heading(total)
      requires side.kind == kind && side.written == isAnythingWritten && (side.pending == [] <==> wrNext == 0)
      modifies this, buff, req`nWriters, req.conn`outgoing
      ensures old(req.conn.outgoing) <= req.conn.outgoing
      ensures old(fcgiErrno) != 0 ==> fcgiErrno != 0
      ensures Raw(total + EncodeAll(CloseRecords(side, old(Common()))))
      ensures req.nWriters == old(req.nWriters) - 1
      decreases 5
    {
      rawWrite := true;
      ghost var shared, all := Common(), total;
      if !(kind == STDERR && wrNext == 0 && !isAnythingWritten) {
        var header := MakeHeader(kind, req.requestId, 0, 0);
        var n := PutStr(header, all);
        all := all + header;
      }
      if req.nWriters == 1 {
        var record := MakeHeader(END_REQUEST, req.requestId, 8, 0) + EndRequestBody(req.appStatus, REQUEST_COMPLETE);
        var n := PutStr(record, all);
        all := all + record;
      }
      CloseBytes(side, shared, total);
      req.nWriters := req.nWriters - 1;
    }

    /** Copy part of the client's bytes into the buffer. */
    method Copy(str: seq<byte>)
      requires Core() && |str| <= stop - wrNext
      modifies this`wrNext, buff
      ensures Core() && wrNext == old(wrNext) + |str|
      ensures buff[..wrNext] == old(buff[..wrNext]) + str
      ensures !wasFCloseCalled && old(HEADER_LEN <= wrNext) ==>
                Side() == old(Side()).(pending := old(Side()).pending + str)
    {
      ghost var pending := if HEADER_LEN <= wrNext then buff[HEADER_LEN..wrNext] else [];
      forall i | 0 <= i < |str| {
        buff[wrNext + i] := str[i];
      }
      wrNext := wrNext + |str|;
      assert old(HEADER_LEN <= wrNext) ==> buff[HEADER_LEN..wrNext] == pending + str;
    }

    /** `moved` bytes of `str` have been dealt with. In raw mode they are meant for the wire;
      * otherwise the rest of them will complete the effect `e`, whose first records are `done`.
      */
    ghost predicate Putting(raw: bool, total: seq<byte>, before: seq<byte>, e: Effect, done: seq<Record>,
                            str: seq<byte>, moved: nat)
      requires moved <= |str|
      reads this, buff, req, req.conn
    {
      if raw then Raw(total + str[..moved])
      else
        && Valid() && ValidRecords(done) && ValidRecords(e.records)
        && if fcgiErrno == 0 then
             && e == Then(done, Put(Side(), Common(), str[moved..]))
             && req.conn.outgoing == before + EncodeAll(done)
           else Stuck() && req.conn.outgoing <= before + EncodeAll(e.records)
    }

    /** Fill the buffer from `str`, or take all that is left of it. */
    method PutSome(m: nat, ghost raw: bool, ghost total: seq<byte>, ghost before: seq<byte>, ghost e: Effect,
                   ghost done: seq<Record>, str: seq<byte>, moved: nat)
      requires Core() && raw == (rawWrite && !wasFCloseCalled)
      requires moved < |str| && wrNext < stop && m == Min(|str| - moved, stop - wrNext)
      requires Putting(raw, total, before, e, done, str, moved)
      modifies this`wrNext, buff
      ensures Core() && wrNext == old(wrNext) + m
      ensures Putting(raw, total, before, e, done, str, moved + m)
    {
      var piece := str[moved..moved + m];
      Slices(total, str, moved, m);
      if !raw && fcgiErrno == 0 && !wasFCloseCalled {
        PutAhead(Side(), Common(), str[moved..], m);
      }
      hide Put;
      Copy(piece);
    }

    /** Empty the full buffer in the middle of `FCGX_PutStr`. */
    method PutOn(ghost raw: bool, ghost total: seq<byte>, ghost before: seq<byte>, ghost e: Effect,
                 ghost done: seq<Record>, ghost str: seq<byte>, ghost moved: nat)
      returns (ghost done': seq<Record>)
      requires raw == (rawWrite && !wasFCloseCalled) && Core() && !isClosed
      requires moved < |str| && wrNext == stop
      requires Putting(raw, total, before, e, done, str, moved)
      modifies this, buff, req`nWriters, req.conn`outgoing
      ensures old(req.conn.outgoing) <= req.conn.outgoing
      ensures old(fcgiErrno) != 0 ==> fcgiErrno != 0
      ensures Core() && rawWrite == old(rawWrite) && wasFCloseCalled == old(wasFCloseCalled)
      ensures isClosed || wrNext < stop
      ensures isClosed ==> wrNext == stop
      ensures Putting(raw, total, before, e, done', str, moved)
      ensures req.nWriters == old(req.nWriters)
      decreases 2
    {
      ghost var side, shared := Side(), Common();
      if !raw {
        PutFull(side, shared, str[moved..]);
        EncodeAllAppend(done, Flush(side, shared).records);
        Associate(before, EncodeAll(done), EncodeAll(Flush(side, shared).records));
        done' := done + Flush(side, shared).records;
        var more := Put(Flush(side, shared).side, shared, str[moved..]);
        ThenThen(done, Flush(side, shared).records, more);
        EncodeAllAppend(done', more.records);
        Associate(before, EncodeAll(done'), EncodeAll(more.records));
      } else {
        done' := done;
      }
      hide EncodeAll, Put, Flush;
      EmptyBuffProc(false, total + str[..moved]);
    }

    /** `FCGX_PutStr`: bytes of the stream, or, in raw mode, bytes for the wire. */
    method PutStr(str: seq<byte>, ghost total: seq<byte>) returns (n: int)
      requires if rawWrite && !wasFCloseCalled then Raw(total) else Valid()
      modifies this, buff, req`nWriters, req.conn`outgoing
      ensures old(req.conn.outgoing) <= req.conn.outgoing
      ensures old(fcgiErrno) != 0 ==> fcgiErrno != 0
      ensures rawWrite == old(rawWrite) && wasFCloseCalled == old(wasFCloseCalled)
      ensures old(rawWrite && !wasFCloseCalled) ==> Raw(total + str)
      ensures !old(rawWrite && !wasFCloseCalled) ==>
                Valid() && Did(old(req.conn.outgoing), Put(old(Side()), old(Common()), str))
      ensures req.nWriters == old(req.nWriters)
      ensures n == |str| || (n == -1 && isClosed)
      decreases 4
    {
      if |str| <= stop - wrNext {
        TakeAll(str, total);
        return |str|;
      }
      ghost var raw, before, e := rawWrite && !wasFCloseCalled, req.conn.outgoing, Put(Side(), Common(), str);
      NothingPut(raw, total, str, e);
      n := PutAll(raw, total, before, e, str);
    }

    /** The general case of `FCGX_PutStr`. */
    method PutAll(ghost raw: bool, ghost total: seq<byte>, ghost before: seq<byte>, ghost e: Effect, str: seq<byte>)
      returns (n: int)
      requires Core() && raw == (rawWrite && !wasFCloseCalled) && str != []
      requires Putting(raw, total, before, e, [], str, 0) && ValidRecords(e.records)
      modifies this, buff, req`nWriters, req.conn`outgoing
      ensures old(req.conn.outgoing) <= req.conn.outgoing
      ensures old(fcgiErrno) != 0 ==> fcgiErrno != 0
      ensures rawWrite == old(rawWrite) && wasFCloseCalled == old(wasFCloseCalled) && req.nWriters == old(req.nWriters)
      ensures if raw then Raw(total + str) else Valid() && Did(before, e)
      ensures n == |str| || (n == -1 && isClosed)
      decreases 3
    {
      hide Putting, Did, Put, Side, Raw, Valid;
      ghost var done := [];
      var bytesMoved := 0;
      while true
        invariant bytesMoved < |str| && Core()
        invariant rawWrite == old(rawWrite) && wasFCloseCalled == old(wasFCloseCalled) &&
            req.nWriters == old(req.nWriters)
        invariant old(req.conn.outgoing) <= req.conn.outgoing && (old(fcgiErrno) != 0 ==> fcgiErrno != 0)
        invariant Putting(raw, total, before, e, done, str, bytesMoved)
        decreases |str| - bytesMoved, if wrNext < stop then 1 else if isClosed then 0 else 2
      {
        if wrNext != stop {
          var m := Min(|str| - bytesMoved, stop - wrNext);
          PutSome(m, raw, total, before, e, done, str, bytesMoved);
          bytesMoved := bytesMoved + m;
          if bytesMoved == |str| {
            PutEnds(raw, total, before, e, done, str, bytesMoved);
            return bytesMoved;
          }
        }
        if isClosed {
          PutEnds(raw, total, before, e, done, str, bytesMoved);
          return -1;
        }
        done := PutOn(raw, total, before, e, done, str, bytesMoved);
      }
    }

    lemma NothingPut(raw: bool, total: seq<byte>, str: seq<byte>, e: Effect)
      requires if raw then Raw(total) else Valid()
      requires Core() && e == Put(Side(), Common(), str)
      ensures Putting(raw, total, req.conn.outgoing, e, [], str, 0)
    {
      assert total + str[..0] == total && str[0..] == str;
      assert [] + e.records == e.records;
      hide Put;
    }

    /** The end of `FCGX_PutStr`: all is put, or the stream is closed. */
    lemma PutEnds(raw: bool, total: seq<byte>, before: seq<byte>, e: Effect, done: seq<Record>, str: seq<byte>,
                  moved: nat)
      requires moved <= |str| && Core() && Putting(raw, total, before, e, done, str, moved)
      requires moved == |str| || isClosed
      requires ValidRecords(e.records)
      ensures if raw then Raw(total + str) else Valid() && Did(before, e)
    {
      if moved == |str| {
        assert str[..moved] == str;
        assert str[moved..] == [];
      }
      if raw && moved < |str| {
        assert total + str[..moved] <= total + str;
      } else if !raw && fcgiErrno == 0 {
        assert Put(Side(), Common(), str[moved..]) == Effect(Side(), Common(), []) by {
          assert Side().pending + [] == Side().pending;
        }
        assert e.records == done;
      }
    }

    /** The fast path of `FCGX_PutStr`: the bytes fit into the buffer. */
    method TakeAll(str: seq<byte>, ghost total: seq<byte>)
      requires |str| <= stop - wrNext
      requires if rawWrite && !wasFCloseCalled then Raw(total) else Valid()
      modifies this`wrNext, buff
      ensures rawWrite && !wasFCloseCalled ==> Raw(total + str)
      ensures !(rawWrite && !wasFCloseCalled) ==>
                Valid() && Did(old(req.conn.outgoing), Put(old(Side()), old(Common()), str))
    {
      assert wasFCloseCalled ==> str == [];
      Associate(req.conn.outgoing, buff[..wrNext], str);
      assert req.conn.outgoing + EncodeAll([]) == req.conn.outgoing;
      Copy(str);
    }

    /** `FCGX_PutChar` */
    method PutChar(c: byte) returns (r: int)
      requires Valid()
      modifies this, buff, req`nWriters, req.conn`outgoing
      ensures old(req.conn.outgoing) <= req.conn.outgoing
      ensures old(fcgiErrno) != 0 ==> fcgiErrno != 0
      ensures Valid() && wasFCloseCalled == old(wasFCloseCalled) && req.nWriters == old(req.nWriters)
      ensures Did(old(req.conn.outgoing), Put(old(Side()), old(Common()), [c]))
      ensures fcgiErrno == 0 ==> r == if wasFCloseCalled then EOF else c
    {
      if wrNext != stop {
        TakeAll([c], []);
        return c;
      }
      ghost var before, side, shared := req.conn.outgoing, Side(), Common();
      assert before + EncodeAll([]) == before;
      if isClosed {
        return EOF;
      }
      PutFull(side, shared, [c]);
      FlushThenRest(before, Flush(side, shared), Put(Flush(side, shared).side, shared, [c]));
      hide EncodeAll, Flush;
      EmptyBuffProc(false, []);
      if wrNext != stop {
        TakeAll([c], []);
        return c;
      }
      return EOF;
    }

    lemma FlushThenRest(before: seq<byte>, flush: Effect, rest: Effect)
      requires ValidRecords(flush.records) && ValidRecords(rest.records)
      ensures ValidRecords(flush.records + rest.records)
      ensures before + EncodeAll(flush.records) + EncodeAll(rest.records)
          == before + EncodeAll(Then(flush.records, rest).records)
    {
      EncodeAllAppend(flush.records, rest.records);
      Associate(before, EncodeAll(flush.records), EncodeAll(rest.records));
      hide EncodeAll;
    }

    /** `FCGX_FFlush` */
    method FFlush() returns (r: int)
      requires Valid()
      modifies this, buff, req`nWriters, req.conn`outgoing
      ensures old(req.conn.outgoing) <= req.conn.outgoing
      ensures old(fcgiErrno) != 0 ==> fcgiErrno != 0
      ensures Valid() && wasFCloseCalled == old(wasFCloseCalled) && req.nWriters == old(req.nWriters)
      ensures Did(old(req.conn.outgoing), Flush(old(Side()), old(Common())))
      ensures fcgiErrno == 0 ==> r == 0
    {
      assert req.conn.outgoing + EncodeAll([]) == req.conn.outgoing;
      if isClosed {
        return 0;
      }
      hide EncodeAll;
      EmptyBuffProc(false, []);
      return if isClosed then -1 else 0;
    }

    /** `FCGX_FClose` */
    method FClose() returns (r: int)
      requires Valid()
      modifies this, buff, req`nWriters, req.conn`outgoing
      ensures old(req.conn.outgoing) <= req.conn.outgoing
      ensures old(fcgiErrno) != 0 ==> fcgiErrno != 0
      ensures Valid() && wasFCloseCalled
      ensures Did(old(req.conn.outgoing), Close(old(Side()), old(Common())))
      ensures Common() == Close(old(Side()), old(Common())).shared
      ensures r == if fcgiErrno == 0 then 0 else EOF
    {
      assert req.conn.outgoing + EncodeAll([]) == req.conn.outgoing;
      hide EncodeAll;
      if !wasFCloseCalled {
        EmptyBuffProc(true, []);
        wasFCloseCalled := true;
        isClosed := true;
        stop := wrNext;
        assert fcgiErrno == 0 ==> buff[..wrNext] == [];
      }
      return if fcgiErrno == 0 then 0 else EOF;
    }

    /** `FCGX_SetExitStatus` */
    method SetExitStatus(status: int)
      requires Valid()
      modifies req`appStatus
      ensures Valid() && Side() == old(Side())
      ensures Common() == old(Common()).(appStatus := status)
    {
      req.appStatus := status;
    }
  }
}
