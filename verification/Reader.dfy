/** The input side of a FastCGI stream: one buffer, refilled in place, with the pointers of
  * `FCGX_Stream` and `FCGX_Stream_Data` as indices into it. Every method is specified by what
  * it does to `Upcoming()`, the meaning of the stream's position.
  */
module Reader {
  import opened Basics
  import opened FcgiProtocol
  import opened FcgiConnection
  import opened NameValue
  import opened ReaderSpec

  const EOF := -1

  // Return codes of the Process* methods; a negative code is an error.
  const STREAM_RECORD := 0
  const SKIP := 1
  const BEGIN_RECORD := 2
  const MGMT_RECORD := 3

  /** The stream from the end of a record's content on, seen with or without `eorStop`. */
  function EdgeOf(env: Env, eorStop: bool, padding: nat, skip: bool, req: Begin, out: seq<byte>,
                  rest: seq<byte>): Pending {
    if eorStop then TailEnd(env, padding, skip, req, out, rest)
    else Boundary(env, padding, skip, req, out, rest)
  }

  lemma EdgePads(env: Env, eorStop: bool, padding: nat, skip: bool, req: Begin, out: seq<byte>, rest: seq<byte>, n: nat)
    requires n <= padding && n <= |rest|
    ensures EdgeOf(env, eorStop, padding, skip, req, out, rest)
        == EdgeOf(env, eorStop, padding - n, skip, req, out, rest[n..])
  {
    BoundaryPads(env, padding, skip, req, out, rest, n);
    hide TailEnd, Boundary;
  }

  /** Where an iteration of the loop of `FillBuffProc` goes next. */
  datatype Next = Return | Continue | Proceed

  /** Reading the body of a BEGIN_REQUEST record with GetStr. */
  lemma BeginBodyRead(env: Env, f: Frame, id: uint16, req: Begin, out: seq<byte>, rest: seq<byte>)
    requires f.content == 8
    ensures var t, b := Tail(env, f, req, out, rest), BeginBody(env, f, id, req, out, rest);
            && |t.bytes| <= 8
            && (|t.bytes| < 8 ==> b == Failed([], if t.end.Fault? then t.end.code else PROTOCOL_ERROR, out))
            && (|t.bytes| == 8 ==>
                  && !f.skip && 8 <= |rest| && t.bytes == rest[..8]
                  && b == Pending([], Begun, rest[8..], out,
                                  Begin(id, rest[0] as int * 0x100 + rest[1] as int, rest[2] % 2 == 1, true),
                                  Frame(0, f.padding, false)))
  {
  }

  lemma TailIgnoresRequest(env: Env, f: Frame, req: Begin, req': Begin, out: seq<byte>, rest: seq<byte>)
    ensures Tail(env, f, req, out, rest).bytes == Tail(env, f, req', out, rest).bytes
    ensures Tail(env, f, req, out, rest).end == Tail(env, f, req', out, rest).end
    ensures Tail(env, f, req, out, rest).out == out
    ensures !Tail(env, f, req, out, rest).end.Begun?
  {
  }

  lemma DropTwice(p: Pending, n: nat, m: nat)
    requires n + m <= |p.bytes|
    ensures p.bytes[..n] + p.Drop(n).bytes[..m] == p.bytes[..n + m]
    ensures p.Drop(n).Drop(m) == p.Drop(n + m)
  {
    assert p.bytes[n..][m..] == p.bytes[n + m..];
  }

  /** `contents` are the entries `before` and those of the first `n` bytes. */
  ghost predicate ParsedUpTo(bytes: seq<byte>, n: nat, before: seq<seq<byte>>, contents: seq<seq<byte>>)
    requires n <= |bytes|
  {
    var rest := ParsePairs(bytes[n..]);
    before + ParsePairs(bytes).entries == contents + rest.entries && ParsePairs(bytes).end == rest.end
  }

  lemma ParsedFurther(bytes: seq<byte>, n: nat, before: seq<seq<byte>>, contents: seq<seq<byte>>, entry: seq<byte>,
                      size: nat)
    requires n <= |bytes| && ParsedUpTo(bytes, n, before, contents)
    requires DecodePair(bytes[n..]) == Some((entry, size))
    ensures n + size <= |bytes| && ParsedUpTo(bytes, n + size, before, contents + [entry])
  {
    assert bytes[n..][size..] == bytes[n + size..];
    assert bytes[n..] != [];
    var rest := ParsePairs(bytes[n + size..]);
    assert contents + ([entry] + rest.entries) == contents + [entry] + rest.entries;
  }

  lemma ParsedAll(bytes: seq<byte>, n: nat, before: seq<seq<byte>>, contents: seq<seq<byte>>)
    requires n <= |bytes| && ParsedUpTo(bytes, n, before, contents)
    requires DecodePair(bytes[n..]) == None
    ensures contents == before + ParsePairs(bytes).entries
    ensures ParsePairs(bytes).end ==
            if n == |bytes| then Between else if Overflows(bytes[n..]) then Overflow else Inside
  {
  }

  lemma NothingParsed(whole: Pending, before: seq<seq<byte>>)
    ensures whole.Drop(0) == whole && ParsedUpTo(whole.bytes, 0, before, before)
  {
    assert whole.bytes[0..] == whole.bytes;
  }

  lemma Prepended(str: seq<byte>, after: Pending)
    ensures Prepend(str, after).bytes[..|str|] == str
    ensures Prepend(str, after).Drop(|str|) == after
  {
  }

  const NEWLINE := 10

  /** Where `n` calls of UnGetChar take the position: each stops at the limit, and looks at nothing else. */
  function PushedBack(at: int, limit: int, n: nat): int
    decreases n
  {
    if n == 0 || at == limit then at else PushedBack(at - 1, limit, n - 1)
  }

  /** Any number of calls stays in the buffer exactly when the limit is not beyond the position. */
  lemma PushbackStaysInside(at: nat, limit: nat)
    ensures (forall n: nat :: 0 <= PushedBack(at, limit, n)) <==> limit <= at
  {
    if limit <= at {
      forall n: nat
        ensures 0 <= PushedBack(at, limit, n)
      {
        PushbackEnds(at, limit, n);
      }
    } else {
      PushbackEnds(at, limit, at + 1);
    }
  }

  lemma {:induction false} PushbackEnds(at: int, limit: int, n: nat)
    ensures PushedBack(at, limit, n) == if limit <= at then (if at - n < limit then limit else at - n) else at - n
    decreases n
  {
    if n > 0 && at != limit {
      PushbackEnds(at - 1, limit, n - 1);
    }
  }

  /** A limit left over from an earlier fill of the buffer: with the position at 1 and the limit at 8, two calls are
    * too many.
    */
  lemma StaleLimit()
    ensures PushedBack(1, 8, 2) == -1
  {
    PushbackEnds(1, 8, 2);
  }

  /** The length of the first line of `bytes`, cut off at `max` bytes. */
  function LineLength(bytes: seq<byte>, max: int): (n: nat)
    ensures n <= |bytes| && (0 <= max ==> n <= max) && (max <= 0 ==> n == 0)
    ensures forall i :: 0 <= i < n - 1 ==> bytes[i] != 10
    ensures n < |bytes| && n < max ==> 0 < n && bytes[n - 1] == 10
  {
    if max <= 0 || bytes == [] then 0
    else if bytes[0] == NEWLINE then 1
    else 1 + LineLength(bytes[1..], max - 1)
  }

  lemma {:induction false} ValueRepliesPrefix(entries: seq<seq<byte>>, n: nat)
    requires n <= |entries|
    requires ValueReplies(entries).Some?
    ensures ValueReplies(entries[..n]).Some?
    ensures |ValueReplies(entries[..n]).value| <= |ValueReplies(entries).value|
  {
    if n < |entries| {
      var last := |entries| - 1;
      ValueRepliesPrefix(entries[..last], n);
      assert entries[..last][..n] == entries[..n];
    } else {
      assert entries[..n] == entries;
    }
  }

  lemma ValueRepliesStep(entries: seq<seq<byte>>, n: nat)
    requires n < |entries|
    requires ValueReplies(entries[..n]).Some?
    ensures ValueReplies(entries[..n + 1]) ==
            match NameOf(entries[n]) {
              case None => None
              case Some(name) => Some(ValueReplies(entries[..n]).value + ValueReply(name))
            }
  {
    assert entries[..n + 1][..n] == entries[..n];
  }

  method CopyTo(a: array<byte>, start: nat, at: nat, bytes: seq<byte>)
    requires start <= at && at + |bytes| <= a.Length
    modifies a
    ensures a[start..at + |bytes|] == old(a[start..at]) + bytes
  {
    forall i | 0 <= i < |bytes| {
      a[at + i] := bytes[i];
    }
  }

  /** The loop of `ProcessManagementRecord` that fills its 64-byte response buffer. The model
    * gives up where the C code would leave the buffer or dereference a null pointer; it fills
    * the padding with zeros.
    */
  method BuildResponse(params: Params) returns (reply: Option<seq<byte>>)
    requires params.Valid()
    ensures reply == GetValuesResult(params.contents)
    ensures reply.Some? <==> Answerable(params.contents)
    ensures reply.Some? ==>
              && |reply.value| % 8 == 0 && Parse(reply.value).Some? && |Parse(reply.value).value| == 1
              && var r := Parse(reply.value).value[0];
                 r.kind == 10 && r.id == 0 && ParsePairs(r.content) == Parsed(Told(params.contents), Between)
  {
    AnsweredExactly(params.contents);
    hide Parse, ParsePairs, Told;
    if Answerable(params.contents) {
      ReplySays(params.contents);
    }
    hide Answerable;
    var response := new byte[64](_ => 0);
    var responseP := HEADER_LEN;
    var p := 0;
    ghost var entries := params.contents;
    hide ValueReplies, GetValuesResult, ValueReply, NameOf;
    NoReplies(entries);
    assert response[HEADER_LEN..responseP] == [];
    while p < params.cur
      invariant p <= params.cur && HEADER_LEN <= responseP <= 63
      invariant ValueReplies(entries[..p]) == Some(response[HEADER_LEN..responseP])
    {
      params.EntryAt(p);
      var ok;
      ok, responseP := PutReply(response, responseP, params.vec[p].text, entries, p);
      if !ok {
        return None;
      }
      p := p + 1;
    }
    assert entries[..p] == entries;
    reply := Finish(response[HEADER_LEN..responseP], entries);
  }

  method PutReply(response: array<byte>, at: nat, entry: seq<byte>, ghost entries: seq<seq<byte>>, ghost p: nat)
    returns (ok: bool, next: nat)
    requires response.Length == 64 && HEADER_LEN <= at <= 63
    requires p < |entries| && entry == entries[p]
    requires ValueReplies(entries[..p]) == Some(response[HEADER_LEN..at])
    modifies response
    ensures !ok ==> GetValuesResult(entries) == None
    ensures ok ==> at <= next <= 63 && ValueReplies(entries[..p + 1]) == Some(response[HEADER_LEN..next])
  {
    hide ValueReplies, GetValuesResult, ValueReply, NameOf;
    var name := NameOf(entry);
    ValueRepliesStep(entries, p);
    NoResult(entries, p);
    if name == None {
      return false, at;
    }
    var text := ValueReply(name.value);
    if at + |text| > 63 {
      return false, at;
    }
    CopyTo(response, HEADER_LEN, at, text);
    return true, at + |text|;
  }

  lemma NoReplies(entries: seq<seq<byte>>)
    ensures ValueReplies(entries[..0]) == Some([])
  {
  }

  lemma NoResult(entries: seq<seq<byte>>, p: nat)
    requires p < |entries|
    ensures ValueReplies(entries[..p + 1]) == None ==> GetValuesResult(entries) == None
    ensures ValueReplies(entries[..p + 1]).Some? && |ValueReplies(entries[..p + 1]).value| > RESPONSE_ROOM ==>
              GetValuesResult(entries) == None
  {
    if ValueReplies(entries).Some? {
      ValueRepliesPrefix(entries, p + 1);
    }
  }

  /** Put the header in front of the reply content and pad it. */
  method Finish(content: seq<byte>, ghost entries: seq<seq<byte>>) returns (reply: Option<seq<byte>>)
    requires |content| <= RESPONSE_ROOM && ValueReplies(entries) == Some(content)
    ensures reply == GetValuesResult(entries)
  {
    var padding := Zeros(AlignInt8(|content|) - |content|);
    return Some(Encode(Record(GET_VALUES_RESULT, NULL_REQUEST_ID, content, padding, 0)));
  }

  datatype Turn = More | End | Broken | Undefined

  class Stream {
    const req: Request
    const buff: array<byte>
    var rdNext: nat
    var stop: nat
    var stopUnget: nat
    var buffStop: nat
    var isClosed: bool
    var wasFCloseCalled: bool
    var fcgiErrno: int
    var kind: byte
    var eorStop: bool
    var skip: bool
    var contentLen: nat
    var paddingLen: nat

    /** `NewStream` for a reader; the buffer is given. */
    constructor (req: Request, buff: array<byte>, kind: byte)
      requires req.conn.Valid() && HEADER_LEN <= buff.Length
      ensures this.req == req && this.buff == buff && this.kind == kind
      ensures Valid() && !isClosed && !eorStop && Available() == req.conn.incoming
      ensures Unread() == NO_FRAME && rdNext == stop && !wasFCloseCalled
    {
      this.req, this.buff, this.kind := req, buff, kind;
      rdNext, stop, stopUnget, buffStop := 0, 0, 0, 0;
      isClosed, wasFCloseCalled, fcgiErrno := false, false, 0;
      eorStop, skip, contentLen, paddingLen := false, false, 0, 0;
    }

    ghost predicate Core()
      reads this, req.conn
    {
      && req.conn.Valid()
      && HEADER_LEN <= buff.Length
      && rdNext <= buffStop <= buff.Length
    }

    ghost predicate Valid()
      reads this, req.conn
    {
      && Core()
      && (!isClosed ==> fcgiErrno == 0 && rdNext <= stop <= buffStop && (rdNext < stop ==> !skip))
      && (isClosed && fcgiErrno == 0 ==> rdNext == stop)
    }

    /** Between calls: a byte that can be read back into the buffer has a place there, and a
      * request has begun unless a BEGIN_REQUEST record is just being read.
      */
    ghost predicate Client()
      reads this, req, req.conn
    {
      && Valid()
      && (!isClosed && rdNext < stop ==> stopUnget <= rdNext)
      && (eorStop || req.isBeginProcessed)
    }

    ghost function Available(): seq<byte>
      requires rdNext <= buffStop <= buff.Length
      reads this, buff, req.conn
    {
      buff[rdNext..buffStop] + req.conn.incoming
    }

    ghost function Setting(): Env
      reads this
    {
      Env(kind,
              match req.conn.readErrno { case None => PROTOCOL_ERROR case Some(e) => e },
              req.conn.limit,
              req.conn.writeErrno)
    }

    ghost function From(f: Frame, rest: seq<byte>): Pending
      reads this, req, req.conn
    {
      if eorStop then Tail(Setting(), f, req.Info(), req.conn.outgoing, rest)
      else Run(Setting(), f, req.Info(), req.conn.outgoing, rest)
    }

    /** The unread rest of the current record, whether or not already handed to the client. */
    ghost function Unread(): Frame
      reads this
    {
      Frame(contentLen + if rdNext <= stop then stop - rdNext else 0, paddingLen, skip)
    }

    /** What the stream is going to give, from where it stands. */
    ghost function Upcoming(): Pending
      requires Valid()
      reads this, buff, req, req.conn
    {
      if !isClosed then From(Unread(), Available())
      else if fcgiErrno != 0 then Failed([], fcgiErrno, req.conn.outgoing)
      else Pending([], Eof, Available(), req.conn.outgoing, req.Info(), Frame(contentLen, paddingLen, skip))
    }

    /** `SetError`: the first error is kept. */
    method SetError(code: int)
      modifies this`fcgiErrno, this`isClosed
      ensures isClosed && fcgiErrno == if old(fcgiErrno) == 0 then code else old(fcgiErrno)
    {
      if fcgiErrno == 0 {
        fcgiErrno := code;
      }
      isClosed := true;
    }

    /** The loop position inside `FillBuffProc`: `header` holds the part of a header already
      * taken. At the head of the loop...
      */
    ghost function Position(header: seq<byte>): Pending
      requires Core()
      reads this, buff, req, req.conn
    {
      if header == [] then From(Frame(contentLen, paddingLen, skip), Available())
      else Boundary(Setting(), 0, skip, req.Info(), req.conn.outgoing, header + Available())
    }

    /** ...and once the content of the current record is used up. */
    ghost function Edge(header: seq<byte>): Pending
      requires Core()
      reads this, buff, req, req.conn
    {
      EdgeOf(Setting(), eorStop, paddingLen, skip, req.Info(), req.conn.outgoing,
             if header == [] then Available() else header + Available())
    }

    lemma EntryPosition()
      requires Valid() && !isClosed && rdNext == stop
      ensures Position([]) == Upcoming()
    {
    }

    lemma PositionIsEdge(header: seq<byte>)
      requires Core() && contentLen == 0
      requires header != [] ==> !eorStop && paddingLen == 0
      requires rdNext < buffStop || header != [] || (!eorStop && paddingLen == 0) || 0 < paddingLen
      ensures Position(header) == Edge(header)
    {
    }

    /** What a call of `FillBuffProc` from a position leads to: the bytes, the end, or the end of
      * a BEGIN_REQUEST record.
      */
    ghost predicate Filled(whole: Pending)
      requires Valid()
      reads this, buff, req, req.conn
    {
      if whole.bytes != [] then !isClosed && rdNext < stop && Upcoming() == whole
      else if whole.end != Begun then isClosed && Upcoming() == whole
      else
        && !isClosed && rdNext == stop && req.isBeginProcessed
        && Available() == whole.rest && req.conn.outgoing == whole.out && req.Info() == whole.req
    }

    /** The read at the head of the loop. */
    method Refill(ghost header: seq<byte>) returns (ok: bool)
      requires Core() && !isClosed && fcgiErrno == 0
      requires rdNext == buffStop
      requires |header| < HEADER_LEN
      requires header != [] ==> !eorStop
      modifies this`rdNext, this`buffStop, this`fcgiErrno, this`isClosed, buff, req.conn`incoming
      ensures Core()
      ensures ok ==> !isClosed && fcgiErrno == 0 && rdNext < buffStop
      ensures ok ==> Available() == old(Available()) && Position(header) == old(Position(header))
      ensures !ok ==> Valid() && isClosed && Filled(old(Position(header))) && !old(Position(header)).Begins()
      ensures |Available()| <= |old(Available())|
    {
      assert Available() == req.conn.incoming;
      var count := req.conn.OsRead(buff);
      if count <= 0 {
        SetError(if count == 0 then PROTOCOL_ERROR else req.conn.readErrno.value);
        return false;
      }
      rdNext := 0;
      buffStop := count;
      return true;
    }

    lemma Advance(n: nat)
      requires Core() && rdNext + n <= buffStop
      ensures buff[rdNext + n..buffStop] + req.conn.incoming == Available()[n..]
      ensures buff[rdNext..rdNext + n] == Available()[..n]
    {
    }

    /** Drop what the buffer has of a record's content. */
    method SkipContent() returns (more: bool)
      requires Core() && rdNext < buffStop && 0 < contentLen && skip
      modifies this`rdNext, this`contentLen, this`skip
      ensures Core() && more == (0 < contentLen)
      ensures |Available()| < |old(Available())|
      ensures more ==> skip && Position([]) == old(Position([]))
      ensures !more ==> !skip && Edge([]) == old(Position([]))
    {
      var count := Min(contentLen, buffStop - rdNext);
      ghost var rest, f, g := Available(), Frame(contentLen, paddingLen, skip),
          Frame(contentLen - count, paddingLen, skip);
      Advance(count);
      contentLen := contentLen - count;
      rdNext := rdNext + count;
      if contentLen > 0 {
        RunSkips(Setting(), f, req.Info(), req.conn.outgoing, rest, count);
        return true;
      }
      skip := false;
      assert Available() == rest[f.content..];
      return false;
    }

    lemma EdgeIs()
      requires Core()
      ensures Edge([]) == EdgeOf(Setting(), eorStop, paddingLen, skip, req.Info(), req.conn.outgoing, Available())
    {
    }

    /** Drop what the buffer has of a record's padding. */
    method SkipPadding() returns (more: bool)
      requires Core() && 0 < paddingLen && contentLen == 0
      modifies this`rdNext, this`paddingLen
      ensures Core() && more == (0 < paddingLen)
      ensures |Available()| <= |old(Available())|
      ensures old(rdNext < buffStop) ==> |Available()| < |old(Available())|
      ensures Edge([]) == old(Edge([]))
    {
      var count := Min(paddingLen, buffStop - rdNext);
      ghost var rest := Available();
      hide EdgeOf, Edge;
      EdgePads(Setting(), eorStop, paddingLen, skip, req.Info(), req.conn.outgoing, rest, count);
      EdgeIs();
      Advance(count);
      paddingLen, rdNext := paddingLen - count, rdNext + count;
      EdgeIs();
      assert Available() == rest[count..];
      return paddingLen > 0;
    }

    /** Collect header bytes, possibly over several reads. */
    method TakeHeader(header: seq<byte>) returns (grown: seq<byte>)
      requires Core() && !eorStop && paddingLen == 0 && |header| < HEADER_LEN
      modifies this`rdNext
      ensures Core() && |header| <= |grown| <= HEADER_LEN
      ensures |Available()| <= |old(Available())|
      ensures old(rdNext < buffStop) ==> |Available()| < |old(Available())|
      ensures Edge(grown) == old(Edge(header))
    {
      var count := Min(HEADER_LEN - |header|, buffStop - rdNext);
      grown := header + buff[rdNext..rdNext + count];
      ghost var rest := Available();
      Advance(count);
      rdNext := rdNext + count;
      assert grown + Available() == header + rest;
      assert [] + rest == rest && (grown == [] ==> Available() == rest);
    }

    /** First part of an iteration of `FillBuffProc`: read if the buffer is empty, then deliver or
      * skip content.
      */
    method TakeContent(ghost header: seq<byte>) returns (next: Next)
      requires Core() && !isClosed && fcgiErrno == 0 && |header| < HEADER_LEN
      requires header != [] ==> !eorStop && contentLen == 0 && paddingLen == 0
      modifies this`rdNext, this`buffStop, this`stop, this`contentLen, this`skip, this`fcgiErrno, this`isClosed, buff,
          req.conn`incoming
      ensures Core()
      ensures next == Return ==> Valid() && Filled(old(Position(header))) && !old(Position(header)).Begins()
      ensures |Available()| <= |old(Available())|
      ensures next == Return && !isClosed ==> Deliverable(old(contentLen), old(skip), old(Available()))
      ensures next != Return ==> !isClosed && fcgiErrno == 0
      ensures next == Continue ==> skip && header == [] && Position([]) == old(Position(header))
      ensures next == Continue ==> |Available()| < |old(Available())|
      ensures next == Proceed ==> contentLen == 0 && Edge(header) == old(Position(header))
      ensures next == Proceed ==>
          |Available()| < |old(Available())| || (Available() == old(Available()) && rdNext < buffStop)
    {
      hide Run;
      hide Tail;
      hide Boundary;
      hide TailEnd;
      if rdNext == buffStop {
        var ok := Refill(header);
        if !ok {
          return Return;
        }
      }
      if contentLen > 0 {
        if !skip {
          Deliver();
          return Return;
        }
        var more := SkipContent();
        return if more then Continue else Proceed;
      }
      PositionIsEdge(header);
      return Proceed;
    }

    /** Second part: skip padding, and end the stream if it must stop at the end of the record. */
    method TakePadding(ghost header: seq<byte>) returns (next: Next)
      requires Core() && !isClosed && fcgiErrno == 0 && contentLen == 0
      requires header != [] ==> !eorStop && paddingLen == 0
      modifies this`rdNext, this`stop, this`paddingLen, this`isClosed
      ensures Core()
      ensures next == Return ==> Valid() && isClosed && Filled(old(Edge(header))) && !old(Edge(header)).Begins()
      ensures next != Return ==> !isClosed
      ensures |Available()| <= |old(Available())|
      ensures next != Return && old(rdNext < buffStop && 0 < paddingLen) ==> |Available()| < |old(Available())|
      ensures next == Continue ==> header == [] && Position([]) == old(Edge(header))
      ensures next == Continue ==> old(0 < paddingLen)
      ensures next == Proceed ==> !eorStop && paddingLen == 0 && Edge(header) == old(Edge(header))
      ensures next == Proceed && old(paddingLen) == 0 ==> rdNext == old(rdNext)
    {
      hide Run;
      hide Tail;
      hide Boundary;
      hide TailEnd;
      if paddingLen > 0 {
        var more := SkipPadding();
        if more {
          PositionIsEdge([]);
          return Continue;
        }
      }
      if eorStop {
        EndRecord();
        return Return;
      }
      return Proceed;
    }

    /** When a fill hands out content, it is content that was already in front. */
    ghost predicate Deliverable(contentLen: nat, skip: bool, available: seq<byte>)
      requires Valid()
      reads this, buff, req.conn
    {
      && 0 < contentLen && !skip && Available() == available
      && rdNext <= stop && Unread() == Frame(contentLen, paddingLen, false)
    }

    /** An iteration of `FillBuffProc` up to the header of the next record. */
    method TakeRecord(ghost header: seq<byte>) returns (next: Next)
      requires Core() && !isClosed && fcgiErrno == 0 && |header| < HEADER_LEN
      requires header != [] ==> !eorStop && contentLen == 0 && paddingLen == 0
      modifies this`rdNext, this`buffStop, this`stop, this`contentLen, this`paddingLen, this`skip
      modifies this`fcgiErrno, this`isClosed, buff, req.conn`incoming
      ensures Core()
      ensures next == Return ==> Valid() && Filled(old(Position(header))) && !old(Position(header)).Begins()
      ensures |Available()| <= |old(Available())|
      ensures next == Return && !isClosed ==>
                Deliverable(old(contentLen), old(skip), old(Available())) && paddingLen == old(paddingLen)
      ensures next != Return ==> !isClosed && fcgiErrno == 0
      ensures next == Continue ==> header == [] && Position([]) == old(Position(header))
      ensures next == Continue ==> |Available()| < |old(Available())|
      ensures next == Continue && 0 < contentLen ==> skip
      ensures next == Proceed ==>
          !eorStop && contentLen == 0 && paddingLen == 0 && Edge(header) == old(Position(header))
      ensures next == Proceed ==>
          |Available()| < |old(Available())| || (Available() == old(Available()) && rdNext < buffStop)
    {
      hide Position;
      hide Edge;
      hide Filled;
      next := TakeContent(header);
      if next == Proceed {
        next := TakePadding(header);
      }
    }

    /** `FillBuffProc`. A client that has used up the buffer gets the next bytes of its stream,
      * or the stream's end.
      */
    method FillBuffProc()
      requires Valid() && !isClosed && rdNext == stop
      modifies this`rdNext, this`buffStop, this`stop, this`stopUnget, this`contentLen, this`paddingLen, this`skip
      modifies this`fcgiErrno, this`isClosed, this`eorStop, buff, req, req.conn
      ensures Valid() && eorStop == old(eorStop)
      ensures Filled(old(Upcoming()))
      ensures req.isBeginProcessed <==> old(req.isBeginProcessed) || old(Upcoming()).Begins()
      ensures |Available()| <= |old(Available())|
      ensures old(eorStop || req.isBeginProcessed) ==> req.Info() == old(req.Info())
      ensures eorStop && !isClosed ==> Available() == old(Available()) && Unread() == old(Unread())
      decreases if eorStop then 0 else 1, 0
    {
      EntryPosition();
      hide Upcoming;
      hide Position;
      hide Edge;
      hide Filled;
      hide Available;
      ghost var whole, info := Upcoming(), req.Info();
      var header: seq<byte> := [];
      while true
        invariant Core() && !isClosed && fcgiErrno == 0
        invariant eorStop == old(eorStop) && req.Info() == info
        invariant |header| < HEADER_LEN
        invariant header != [] ==> !eorStop && contentLen == 0 && paddingLen == 0
        invariant Position(header) == whole
        invariant |Available()| <= |old(Available())|
        invariant eorStop && 0 < contentLen && !skip ==>
                    && Available() == old(Available())
                    && Frame(contentLen, paddingLen, skip) == old(Unread())
        decreases |Available()|
      {
        var next := TakeRecord(header);
        if next == Return {
          return;
        } else if next == Continue {
          header := [];
          continue;
        }
        header := TakeHeader(header);
        if |header| < HEADER_LEN {
          PositionIsEdge(header);
          continue;
        }
        HeaderComplete(header);
        var done := Interpret(header);
        if done {
          return;
        }
        header := [];
      }
    }

    /** The position after a whole header. */
    ghost function Dispatched(h: seq<byte>): Pending
      requires Core() && |h| == HEADER_LEN
      reads this, buff, req, req.conn
    {
      Dispatch(Setting(), h, skip, req.Info(), req.conn.outgoing, Available())
    }

    lemma HeaderComplete(h: seq<byte>)
      requires Core() && |h| == HEADER_LEN && !eorStop && paddingLen == 0
      ensures Edge(h) == Dispatched(h)
    {
      BoundaryDispatches(Setting(), skip, req.Info(), req.conn.outgoing, h, Available());
    }

    /** Last part of an iteration of `FillBuffProc`: interpret the header, with the stream set to
      * stop at the end of the record meanwhile.
      */
    method Interpret(h: seq<byte>) returns (done: bool)
      requires Core() && !isClosed && fcgiErrno == 0 && |h| == HEADER_LEN
      requires !eorStop && contentLen == 0 && paddingLen == 0
      modifies this`rdNext, this`buffStop, this`stop, this`stopUnget, this`contentLen, this`paddingLen, this`skip
      modifies this`fcgiErrno, this`isClosed, this`eorStop, buff, req, req.conn
      ensures Core() && !eorStop
      ensures done ==> Valid() && Filled(old(Dispatched(h)))
      ensures done ==> (req.isBeginProcessed <==> old(req.isBeginProcessed) || old(Dispatched(h)).Begins())
      ensures !done ==> !isClosed && fcgiErrno == 0 && Position([]) == old(Dispatched(h))
      ensures |Available()| <= |old(Available())|
      ensures !done || old(req.isBeginProcessed) ==> req.Info() == old(req.Info())
      decreases 1, 0, 0
    {
      hide Run;
      hide Dispatch;
      eorStop := true;
      stop := rdNext;
      var status := ProcessHeader(h);
      eorStop := false;
      isClosed := false;
      if status == STREAM_RECORD {
        if contentLen == 0 {
          stop := rdNext;
          isClosed := true;
          return true;
        }
        return false;
      } else if status == SKIP {
        skip := true;
        return false;
      } else if status == BEGIN_RECORD {
        return true;
      } else if status == MGMT_RECORD {
        return false;
      } else {
        SetError(status);
        return true;
      }
    }

    /** What a return code of `ProcessHeader` says about the rest of the stream. */
    ghost predicate Processed(status: int, whole: Pending)
      requires Core()
      reads this, buff, req, req.conn
    {
      var f := Frame(contentLen, paddingLen, skip);
      if status < 0 then whole == Failed([], if fcgiErrno != 0 then fcgiErrno else status, req.conn.outgoing)
      else
        && fcgiErrno == 0 && rdNext == stop
        && if status == STREAM_RECORD then
             whole == (if contentLen == 0 then Pending([], Eof, Available(), req.conn.outgoing, req.Info(), f)
                       else Run(Setting(), f, req.Info(), req.conn.outgoing, Available()))
           else if status == SKIP then
             whole == Run(Setting(), f.(skip := true), req.Info(), req.conn.outgoing, Available())
           else if status == BEGIN_RECORD then
             && whole.bytes == [] && whole.end == Begun && req.isBeginProcessed && contentLen == 0 && !skip
             && whole.rest == Available() && whole.out == req.conn.outgoing && whole.req == req.Info()
           else
             && status == MGMT_RECORD
             && whole == Run(Setting(), f, req.Info(), req.conn.outgoing, Available())
    }

    /** `ProcessHeader` */
    method ProcessHeader(h: seq<byte>) returns (status: int)
      requires Valid() && !isClosed && eorStop && rdNext == stop && |h| == HEADER_LEN
      requires contentLen == 0 && paddingLen == 0
      modifies this`rdNext, this`buffStop, this`stop, this`stopUnget, this`contentLen, this`paddingLen, this`skip
      modifies this`fcgiErrno, this`isClosed, this`eorStop, buff, req, req.conn
      ensures Core() && eorStop
      ensures Processed(status, old(Dispatched(h)))
      ensures status != BEGIN_RECORD ==> req.isBeginProcessed == old(req.isBeginProcessed)
      ensures |Available()| <= |old(Available())|
      ensures (0 <= status && status != BEGIN_RECORD) || old(req.isBeginProcessed) ==> req.Info() == old(req.Info())
      decreases 0, 16
    {
      if h[0] != VERSION_1 {
        return UNSUPPORTED_VERSION;
      }
      var requestId := HeaderId(h);
      contentLen := HeaderContentLength(h);
      paddingLen := h[6];
      if h[1] == BEGIN_REQUEST {
        status := ProcessBeginRecord(requestId);
      } else if requestId == NULL_REQUEST_ID {
        status := ProcessManagementRecord(h[1]);
      } else if requestId != req.requestId {
        status := SKIP;
      } else if h[1] != kind {
        status := PROTOCOL_ERROR;
      } else {
        status := STREAM_RECORD;
      }
    }

    /** The position after the header of a BEGIN_REQUEST record. */
    ghost function Beginning(id: uint16): Pending
      requires Core()
      reads this, buff, req, req.conn
    {
      var f := Frame(contentLen, paddingLen, skip);
      if id == 0 || contentLen != 8 then Failed([], PROTOCOL_ERROR, req.conn.outgoing)
      else if req.isBeginProcessed then
        Answer(Setting(), CantMultiplex(id), f.(skip := true), req.Info(), req.conn.outgoing, Available())
      else BeginBody(Setting(), f, id, req.Info(), req.conn.outgoing, Available())
    }

    /** `ProcessBeginRecord` */
    method ProcessBeginRecord(requestId: uint16) returns (status: int)
      requires Valid() && !isClosed && eorStop && rdNext == stop
      modifies this`rdNext, this`buffStop, this`stop, this`stopUnget, this`contentLen, this`paddingLen, this`skip
      modifies this`fcgiErrno, this`isClosed, this`eorStop, buff, req, req.conn
      ensures Core() && eorStop
      ensures Processed(status, old(Beginning(requestId)))
      ensures status != BEGIN_RECORD ==> req.isBeginProcessed == old(req.isBeginProcessed)
      ensures |Available()| <= |old(Available())|
      ensures (0 <= status && status != BEGIN_RECORD) || old(req.isBeginProcessed) ==> req.Info() == old(req.Info())
      decreases 0, 13
    {
      hide Run;
      if requestId == 0 || contentLen != 8 {
        return PROTOCOL_ERROR;
      }
      if req.isBeginProcessed {
        var sent := Send(CantMultiplex(requestId));
        return if sent then SKIP else -1;
      }
      status := ReadBeginBody(requestId);
    }

    /** The rest of `ProcessBeginRecord`: accept the new request. */
    method ReadBeginBody(requestId: uint16) returns (status: int)
      requires Valid() && !isClosed && eorStop && rdNext == stop && contentLen == 8
      modifies this`rdNext, this`buffStop, this`stop, this`stopUnget, this`contentLen, this`paddingLen, this`skip
      modifies this`fcgiErrno, this`isClosed, this`eorStop, buff, req, req.conn
      ensures Core() && eorStop && status <= BEGIN_RECORD
      ensures status == BEGIN_RECORD || status < 0
      ensures status != BEGIN_RECORD ==> req.isBeginProcessed == old(req.isBeginProcessed)
      ensures |Available()| <= |old(Available())|
      ensures Processed(status,
                        old(BeginBody(Setting(), Frame(8, paddingLen, skip), requestId, req.Info(), req.conn.outgoing,
                                      Available())))
      decreases 0, 5
    {
      ghost var f, info, rest := Unread(), req.Info(), Available();
      req.requestId := requestId;
      BeginAhead(info, requestId);
      hide BeginBody, Upcoming, Progress;
      ghost var whole := Upcoming();
      var body := GetStr(8);
      if |body| != 8 {
        BodyCutShort(whole, f, rest, |body|);
        return PROTOCOL_ERROR;
      }
      BodyRead(whole, f, rest);
      req.keepConnection := body[2] % 2 == 1;
      req.role := body[0] as int * 0x100 + body[1] as int;
      req.isBeginProcessed := true;
      return BEGIN_RECORD;
    }

    lemma BeginAhead(info: Begin, id: uint16)
      requires Valid() && !isClosed && eorStop && rdNext == stop && contentLen == 8
      ensures var t, b := Upcoming(), BeginBody(Setting(), Unread(), id, info, req.conn.outgoing, Available());
              && |t.bytes| <= 8 && t.out == req.conn.outgoing && !t.end.Begun?
              && (|t.bytes| < 8 ==>
                    b == Failed([], if t.end.Fault? then t.end.code else PROTOCOL_ERROR, req.conn.outgoing))
              && (|t.bytes| == 8 ==>
                    && !skip && 8 <= |Available()|
                    && b == Pending([], Begun, Available()[8..], req.conn.outgoing,
                                    Begin(id, t.bytes[0] as int * 0x100 + t.bytes[1] as int, t.bytes[2] % 2 == 1, true),
                                    Frame(0, paddingLen, false)))
    {
      BeginBodyRead(Setting(), Unread(), id, info, req.conn.outgoing, Available());
      TailIgnoresRequest(Setting(), Unread(), info, req.Info(), req.conn.outgoing, Available());
    }

    lemma BodyCutShort(whole: Pending, f: Frame, rest: seq<byte>, n: nat)
      requires Client() && isClosed && n == |whole.bytes| && Progress(whole, f, rest, n) && !whole.end.Begun?
      ensures |Available()| <= |rest| && req.conn.outgoing == whole.out
      ensures fcgiErrno == if whole.end.Fault? then whole.end.code else 0
    {
    }

    lemma BodyRead(whole: Pending, f: Frame, rest: seq<byte>)
      requires Client() && !isClosed && eorStop && Progress(whole, f, rest, 8) && f.content == 8
      requires whole.out == Upcoming().out
      ensures 8 <= |rest| && Available() == rest[8..] && Unread() == f.(content := 0)
      ensures contentLen == 0 && rdNext == stop && paddingLen == f.padding && skip == f.skip
    {
    }

    /** Write a record that was put together in a local variable. */
    method Send(bytes: seq<byte>) returns (ok: bool)
      requires Core()
      modifies this`fcgiErrno, this`isClosed, req.conn`outgoing
      ensures Core()
      ensures ok == Accepts(req.conn.limit, old(req.conn.outgoing), |bytes|)
      ensures req.conn.outgoing == PartlyWritten(req.conn.limit, old(req.conn.outgoing), bytes)
      ensures ok ==> req.conn.outgoing == old(req.conn.outgoing) + bytes
      ensures ok ==> isClosed == old(isClosed) && fcgiErrno == old(fcgiErrno)
      ensures !ok ==> isClosed && fcgiErrno == if old(fcgiErrno) == 0 then req.conn.writeErrno else old(fcgiErrno)
    {
      var record := new byte[|bytes|](i requires 0 <= i < |bytes| => bytes[i]);
      assert record[..|bytes|] == bytes;
      var status := req.conn.WriteItAll(record, |bytes|);
      if status < 0 {
        SetError(req.conn.writeErrno);
        return false;
      }
      return true;
    }

    /** The position after the header of a management record. */
    ghost function Managing(kind: byte): Pending
      requires Core()
      reads this, buff, req, req.conn
    {
      Manage(Setting(), kind, Frame(contentLen, paddingLen, skip), req.Info(), req.conn.outgoing, Available())
    }

    /** `ProcessManagementRecord` */
    method ProcessManagementRecord(kind: byte) returns (status: int)
      requires Valid() && !isClosed && eorStop && rdNext == stop
      modifies this`rdNext, this`buffStop, this`stop, this`stopUnget, this`contentLen, this`paddingLen, this`skip
      modifies this`fcgiErrno, this`isClosed, this`eorStop, buff, req, req.conn
      ensures Core() && eorStop
      ensures Processed(status, old(Managing(kind)))
      ensures |Available()| <= |old(Available())|
      ensures 0 <= status ==> status != BEGIN_RECORD
      ensures req.Info() == old(req.Info())
      decreases 0, 15
    {
      hide Run;
      if kind == GET_VALUES {
        status := ProcessGetValues();
      } else {
        ManageOther(Setting(), kind, Unread(), req.Info(), req.conn.outgoing, Available());
        hide Manage;
        var sent := Send(Encode(UnknownTypeRecord(kind)));
        return if sent then MGMT_RECORD else -1;
      }
    }

    /** What the outcome of reading a whole record as pairs says about the state. */
    lemma ReadToEnd(t: Pending, parsed: int)
      requires Client() && isClosed && !t.end.Begun?
      requires parsed == 0 ==> AtEnd(t)
      ensures parsed == 0 && fcgiErrno == 0 ==> t.end.Eof? && Available() == t.rest && rdNext == stop
      ensures parsed == 0 && fcgiErrno == 0 ==> t.frame == Frame(contentLen, paddingLen, skip)
      ensures parsed == 0 && fcgiErrno != 0 ==> t.end == Fault(fcgiErrno)
    {
    }

    /** `ProcessManagementRecord` for GET_VALUES, the only type it understands. */
    method ProcessGetValues() returns (status: int)
      requires Valid() && !isClosed && eorStop && rdNext == stop
      modifies this`rdNext, this`buffStop, this`stop, this`stopUnget, this`contentLen, this`paddingLen, this`skip
      modifies this`fcgiErrno, this`isClosed, this`eorStop, buff, req, req.conn
      ensures Core() && eorStop
      ensures Processed(status, old(Managing(GET_VALUES)))
      ensures |Available()| <= |old(Available())|
      ensures 0 <= status ==> status == MGMT_RECORD
      ensures req.Info() == old(req.Info())
      decreases 0, 14
    {
      hide Processed, Replying, Managing, Available;
      var params := new Params(3);
      var ok := ReadValues(params);
      if !ok {
        return PROTOCOL_ERROR;
      }
      status := SendResponse(params);
    }

    /** The stream if it is answered with the values of `entries`. */
    ghost function Replying(entries: seq<seq<byte>>): Pending
      requires Core()
      reads this, buff, req, req.conn
    {
      match GetValuesResult(entries)
      case None => Failed([], UNDEFINED, req.conn.outgoing)
      case Some(reply) =>
        Answer(Setting(), reply, Frame(contentLen, paddingLen, skip), req.Info(), req.conn.outgoing, Available())
    }

    /** Read what values are asked for. */
    method ReadValues(params: Params) returns (ok: bool)
      requires Valid() && !isClosed && eorStop && rdNext == stop
      requires params.Valid() && params.contents == []
      modifies this`rdNext, this`buffStop, this`stop, this`stopUnget, this`contentLen, this`paddingLen, this`skip
      modifies this`fcgiErrno, this`isClosed, this`eorStop, buff, req, req.conn
      modifies params, params.vec
      ensures Core() && eorStop && params.Valid()
      ensures req.Info() == old(req.Info())
      ensures |Available()| <= |old(Available())|
      ensures if ok then fcgiErrno == 0 && rdNext == stop && Replying(params.contents) == old(Managing(GET_VALUES))
              else Processed(PROTOCOL_ERROR, old(Managing(GET_VALUES)))
      decreases 0, 13
    {
      ValuesAhead();
      hide Answer, Processed, Managing, Upcoming, Available, GetValuesResult, ParsePairs;
      ghost var t, m := Upcoming(), Managing(GET_VALUES);
      ok := ReadRecord(params, t);
      if !ok {
        ProcessedFault(m);
      }
    }

    lemma ProcessedFault(m: Pending)
      requires Core() && fcgiErrno != 0 && m == Failed([], fcgiErrno, req.conn.outgoing)
      ensures Processed(PROTOCOL_ERROR, m)
    {
    }

    lemma ValuesAhead()
      requires Valid() && !isClosed && eorStop && rdNext == stop
      ensures var t, m := Upcoming(), Managing(GET_VALUES);
              var parsed := ParsePairs(t.bytes);
              && t.out == req.conn.outgoing && !t.end.Begun? && |t.rest| <= |Available()|
              && (parsed.end == Overflow ==> m == Failed([], UNDEFINED, req.conn.outgoing))
              && (t.end.Fault? ==> t.end.code != 0)
              && (t.end.Fault? && parsed.end != Overflow ==> m == Failed([], t.end.code, req.conn.outgoing))
              && (t.end.Eof? ==> t.frame.content == 0)
              && (t.end.Eof? && parsed.end == Inside ==> m == Failed([], PARAMS_ERROR, req.conn.outgoing))
              && (t.end.Eof? && parsed.Ok() ==>
                    match GetValuesResult(parsed.entries)
                    case None => m == Failed([], UNDEFINED, req.conn.outgoing)
                    case Some(reply) => m == Answer(Setting(), reply, t.frame, req.Info(), req.conn.outgoing, t.rest))
    {
      hide Run, Manage, Tail, GetValuesResult, ParsePairs, Answer;
      ManageValues(Setting(), Unread(), req.Info(), req.conn.outgoing, Available());
    }

    /** Read the content of the current record as pairs. */
    method ReadRecord(params: Params, ghost t: Pending) returns (ok: bool)
      requires Valid() && !isClosed && eorStop && rdNext == stop
      requires params.Valid() && params.contents == []
      requires t == Upcoming() && (t.end.Fault? ==> t.end.code != 0) && !t.end.Begun?
      requires t.end.Eof? ==> t.frame.content == 0
      modifies this`rdNext, this`buffStop, this`stop, this`stopUnget, this`contentLen, this`paddingLen, this`skip
      modifies this`fcgiErrno, this`isClosed, this`eorStop, buff, req, req.conn
      modifies params, params.vec
      ensures Core() && eorStop && params.Valid()
      ensures req.Info() == old(req.Info())
      ensures |Available()| <= |old(Available())|
      ensures req.conn.outgoing == t.out
      ensures ok == (t.end.Eof? && ParsePairs(t.bytes).Ok())
      ensures ok ==>
                && params.contents == ParsePairs(t.bytes).entries
                && fcgiErrno == 0 && rdNext == stop && Available() == t.rest &&
                    t.frame == Frame(contentLen, paddingLen, skip)
      ensures !ok && ParsePairs(t.bytes).end == Overflow ==> fcgiErrno == UNDEFINED
      ensures !ok && ParsePairs(t.bytes).end != Overflow ==>
                fcgiErrno == if t.end.Fault? then t.end.code else PARAMS_ERROR
      decreases 0, 12
    {
      hide Upcoming;
      hide ParsePairs;
      hide AtEnd;
      var parsed := ReadParams(params);
      assert [] + ParsePairs(t.bytes).entries == ParsePairs(t.bytes).entries;
      ReadToEnd(t, parsed);
      return fcgiErrno == 0 && contentLen == 0;
    }

    method SendResponse(params: Params) returns (status: int)
      requires Core() && eorStop && rdNext == stop && fcgiErrno == 0 && params.Valid()
      modifies this`fcgiErrno, this`isClosed, req.conn`outgoing
      ensures Core()
      ensures Processed(status, old(Replying(params.contents)))
      ensures Available() == old(Available())
      ensures 0 <= status ==> status == MGMT_RECORD
    {
      hide Run;
      hide GetValuesResult;
      var reply := BuildResponse(params);
      if reply == None {
        return UNDEFINED;
      }
      var sent := Send(reply.value);
      return if sent then MGMT_RECORD else -1;
    }

    /** `FCGX_GetStr`: the next `n` bytes of the stream, or all that are left when the end comes first. */
    method GetStr(n: int) returns (str: seq<byte>)
      requires Client()
      modifies this`rdNext, this`buffStop, this`stop, this`stopUnget, this`contentLen, this`paddingLen, this`skip
      modifies this`fcgiErrno, this`isClosed, this`eorStop, buff, req, req.conn
      ensures Client() && eorStop == old(eorStop) && req.Info() == old(req.Info())
      ensures Progress(old(Upcoming()), old(Unread()), old(Available()), |str|)
      ensures str == old(Upcoming()).bytes[..|str|]
      ensures |str| == if n <= 0 then 0 else Min(n, |old(Upcoming()).bytes|)
      ensures 0 < n ==> isClosed == (|str| < n)
      ensures 0 < n && !isClosed ==> CanUnget() && stopUnget < rdNext
      decreases if eorStop then 0 else 1, 4
    {
      if isClosed || n <= 0 {
        return [];
      }
      if n <= stop - rdNext {
        str := Take(n);
        return;
      }
      NoProgress();
      str := Collect(n, Upcoming(), Unread(), Available());
    }

    lemma NoProgress()
      requires Client()
      ensures Progress(Upcoming(), Unread(), Available(), 0)
    {
      assert Upcoming().Drop(0) == Upcoming() && Available()[0..] == Available();
    }

    /** The general case of `FCGX_GetStr`. */
    method Collect(n: nat, ghost whole: Pending, ghost f: Frame, ghost available: seq<byte>) returns (str: seq<byte>)
      requires Client() && !isClosed && rdNext <= stop && 0 < n && Progress(whole, f, available, 0)
      modifies this`rdNext, this`buffStop, this`stop, this`stopUnget, this`contentLen, this`paddingLen, this`skip
      modifies this`fcgiErrno, this`isClosed, this`eorStop, buff, req, req.conn
      ensures Client() && eorStop == old(eorStop) && req.Info() == old(req.Info())
      ensures Progress(whole, f, available, |str|)
      ensures |str| == Min(n, |whole.bytes|) && str == whole.bytes[..|str|]
      ensures isClosed == (|str| < n) && (!isClosed ==> CanUnget() && stopUnget < rdNext)
      decreases if eorStop then 0 else 1, 3
    {
      hide Progress;
      hide Client;
      str := [];
      while true
        invariant Client() && !isClosed && rdNext <= stop && eorStop == old(eorStop) && req.Info() == old(req.Info())
        invariant |str| < n && |str| <= |whole.bytes| && str == whole.bytes[..|str|]
        invariant Progress(whole, f, available, |str|)
        decreases n - |str|, if rdNext == stop then 1 else 0
      {
        if rdNext != stop {
          var piece := TakeMore(Min(n - |str|, stop - rdNext), whole, f, available, |str|);
          str := str + piece;
          if |str| == n {
            return;
          }
        }
        FillMore(whole, f, available, |str|);
        if isClosed {
          return;
        }
      }
    }

    /** `n` bytes of a stream have been handed out. */
    ghost predicate Progress(whole: Pending, f: Frame, available: seq<byte>, n: nat)
      requires Client()
      reads this, buff, req, req.conn
    {
      && n <= |whole.bytes| && Upcoming() == whole.Drop(n)
      && |Available()| <= |available|
      && (!isClosed && eorStop ==> InRecord(f, available, n))
    }

    method TakeMore(m: nat, ghost whole: Pending, ghost f: Frame, ghost available: seq<byte>, ghost n: nat)
      returns (str: seq<byte>)
      requires Client() && !isClosed && 0 < m <= stop - rdNext
      requires Progress(whole, f, available, n)
      modifies this`rdNext
      ensures Client() && !isClosed && rdNext == old(rdNext) + m <= stop && CanUnget() && stopUnget < rdNext
      ensures n + m <= |whole.bytes|
      ensures |str| == m && n + m <= |whole.bytes| && whole.bytes[..n] + str == whole.bytes[..n + m]
      ensures Progress(whole, f, available, n + m)
    {
      hide Upcoming;
      ghost var g, rest := Unread(), Available();
      str := Take(m);
      DropTwice(whole, n, m);
      if eorStop {
        FurtherInRecord(f, available, n, g, rest, m);
      }
    }

    method FillMore(ghost whole: Pending, ghost f: Frame, ghost available: seq<byte>, ghost n: nat)
      requires Client() && !isClosed && rdNext == stop
      requires Progress(whole, f, available, n)
      modifies this`rdNext, this`buffStop, this`stop, this`stopUnget, this`contentLen, this`paddingLen, this`skip
      modifies this`fcgiErrno, this`isClosed, this`eorStop, buff, req, req.conn
      ensures Client() && eorStop == old(eorStop) && req.Info() == old(req.Info())
      ensures Progress(whole, f, available, n)
      ensures isClosed ==> |whole.bytes| == n
      ensures !isClosed ==> rdNext < stop
      decreases if eorStop then 0 else 1, 2
    {
      hide Upcoming;
      Fill();
    }

    /** `n` bytes into a record whose end must not be passed. */
    ghost predicate InRecord(f: Frame, available: seq<byte>, n: nat)
      requires Core() && rdNext <= stop
      reads this, buff, req.conn
    {
      && n <= |available| && Available() == available[n..]
      && n <= f.content && Unread() == f.(content := f.content - n)
    }

    lemma NeverBegun()
      requires Client() && !isClosed
      ensures !Upcoming().end.Begun?
    {
      if !eorStop {
        RunStaysBegun(Setting(), Unread(), req.Info(), req.conn.outgoing, Available());
      }
    }

    lemma FurtherInRecord(f: Frame, available: seq<byte>, n: nat, g: Frame, rest: seq<byte>, m: nat)
      requires Core() && rdNext <= stop
      requires n <= |available| && n <= f.content && rest == available[n..] && g == f.(content := f.content - n)
      requires InRecord(g, rest, m)
      ensures InRecord(f, available, n + m)
    {
    }

    /** The refill shared by the reading calls: the unget limit moves to the new bytes. */
    method Fill()
      requires Client() && !isClosed && rdNext == stop
      modifies this`rdNext, this`buffStop, this`stop, this`stopUnget, this`contentLen, this`paddingLen, this`skip
      modifies this`fcgiErrno, this`isClosed, this`eorStop, buff, req, req.conn
      ensures Client() && eorStop == old(eorStop) && req.Info() == old(req.Info())
      ensures Upcoming() == old(Upcoming())
      ensures isClosed == (old(Upcoming()).bytes == [])
      ensures !isClosed ==> rdNext < stop && stopUnget == rdNext
      ensures |Available()| <= |old(Available())|
      ensures eorStop && !isClosed ==> Available() == old(Available()) && Unread() == old(Unread())
      decreases if eorStop then 0 else 1, 1
    {
      hide Tail;
      hide Run;
      NeverBegun();
      FillBuffProc();
      if !isClosed {
        stopUnget := rdNext;
      }
    }

    lemma PeekAhead(n: nat)
      requires Valid() && !isClosed && n <= stop - rdNext
      ensures var after := From(Unread().(content := Unread().content - n), Available()[n..]);
              && n <= |Upcoming().bytes|
              && Upcoming().bytes[..n] == buff[rdNext..rdNext + n]
              && Upcoming().Drop(n) == after
    {
      Advance(n);
      var f, rest := Unread(), Available();
      if n > 0 {
        if eorStop {
          TailDelivers(Setting(), f, req.Info(), req.conn.outgoing, rest, n);
        } else {
          RunDelivers(Setting(), f, req.Info(), req.conn.outgoing, rest, n);
        }
        hide Tail, Run;
        Prepended(buff[rdNext..rdNext + n], From(f.(content := f.content - n), rest[n..]));
      } else {
        assert rest[n..] == rest && Upcoming().bytes[n..] == Upcoming().bytes;
      }
    }

    /** Hand out bytes that are in the buffer. */
    method Take(n: nat) returns (str: seq<byte>)
      requires Client() && !isClosed && 0 < n <= stop - rdNext
      modifies this`rdNext
      ensures Client() && CanUnget() && stopUnget < rdNext && rdNext == old(rdNext) + n
      ensures |str| == n <= |old(Upcoming()).bytes|
      ensures str == old(Upcoming()).bytes[..n] && Upcoming() == old(Upcoming()).Drop(n)
      ensures InRecord(old(Unread()), old(Available()), n)
    {
      hide Tail;
      hide Run;
      PeekAhead(n);
      Advance(n);
      str := buff[rdNext..rdNext + n];
      rdNext := rdNext + n;
    }

    /** `FCGX_GetChar`: the next byte of the stream, or EOF. */
    method GetChar() returns (c: int)
      requires Client()
      modifies this`rdNext, this`buffStop, this`stop, this`stopUnget, this`contentLen, this`paddingLen, this`skip
      modifies this`fcgiErrno, this`isClosed, this`eorStop, buff, req, req.conn
      ensures Client() && eorStop == old(eorStop) && req.Info() == old(req.Info())
      ensures -1 <= c < 0x100
      ensures Progress(old(Upcoming()), old(Unread()), old(Available()), if c == EOF then 0 else 1)
      ensures c == EOF ==> isClosed && old(Upcoming()).bytes == []
      ensures c != EOF ==> c == old(Upcoming()).bytes[0] && CanUnget() && stopUnget < rdNext
      decreases if eorStop then 0 else 1, 4
    {
      hide Tail;
      hide Run;
      NoProgress();
      if isClosed {
        return EOF;
      }
      if rdNext == stop {
        ghost var whole, f, available := Upcoming(), Unread(), Available();
        FillMore(whole, f, available, 0);
        if isClosed {
          return EOF;
        }
      }
      PeekAhead(1);
      c := TakeOne();
    }

    method TakeOne() returns (c: byte)
      requires Client() && !isClosed && rdNext < stop
      modifies this`rdNext
      ensures Client() && CanUnget() && stopUnget < rdNext
      ensures Progress(old(Upcoming()), old(Unread()), old(Available()), 1)
      ensures old(Upcoming()).bytes != [] && c == old(Upcoming()).bytes[0]
    {
      var str := Take(1);
      return str[0];
    }

    /** The bytes from `stopUnget` on were handed out from the current buffer fragment. */
    ghost predicate CanUnget()
      reads this
    {
      !isClosed && stopUnget <= rdNext && !skip
    }

    /** `FCGX_UnGetChar`: put a byte back in front of the stream. Where bytes have just been read the limit of
      * pushback is at or before the position (`CanUnget`), and any number of calls stays in the buffer; where it
      * is not, only the caller can know that there is room (`PushbackStaysInside`).
      */
    method UnGetChar(c: int) returns (r: int)
      requires Client() && -1 <= c < 0x100
      requires c != EOF && !isClosed ==> 0 <= PushedBack(rdNext, stopUnget, 1) && (rdNext != stopUnget ==> !skip)
      modifies this`rdNext, buff
      ensures Valid() && (old(isClosed || CanUnget()) ==>
                          Client() && isClosed == old(isClosed) && (!isClosed ==> CanUnget()))
      ensures rdNext == if c == EOF || isClosed then old(rdNext) else PushedBack(old(rdNext), stopUnget, 1)
      ensures r == if c == EOF || isClosed || old(rdNext) == stopUnget then EOF else c
      ensures r == EOF ==> Upcoming() == old(Upcoming())
      ensures r != EOF ==>
              Upcoming().bytes == [c as byte] + old(Upcoming()).bytes && Upcoming().Drop(1) == old(Upcoming())
    {
      hide Tail;
      hide Run;
      if c == EOF || isClosed || rdNext == stopUnget {
        return EOF;
      }
      ghost var rest := Available();
      rdNext := rdNext - 1;
      buff[rdNext] := c;
      assert Available() == [c as byte] + rest;
      PeekAhead(1);
      assert Upcoming().bytes == Upcoming().bytes[..1] + Upcoming().bytes[1..];
      return c;
    }

    /** `FCGX_GetLine`: the bytes up to and including a newline, at most `n - 1` of them; NULL
      * when the stream had already ended.
      */
    method GetLine(n: int) returns (str: Option<seq<byte>>)
      requires Client()
      modifies this`rdNext, this`buffStop, this`stop, this`stopUnget, this`contentLen, this`paddingLen, this`skip
      modifies this`fcgiErrno, this`isClosed, this`eorStop, buff, req, req.conn
      ensures Client() && eorStop == old(eorStop) && req.Info() == old(req.Info())
      ensures str == None <==> 1 < n && old(Upcoming()).bytes == []
      ensures str.Some? ==>
                && |str.value| == LineLength(old(Upcoming()).bytes, n - 1)
                && str.value == old(Upcoming()).bytes[..|str.value|]
                && Upcoming() == old(Upcoming()).Drop(|str.value|)
                && (str.value != [] && !isClosed ==> CanUnget() && stopUnget < rdNext)
      decreases if eorStop then 0 else 1, 6
    {
      hide Tail;
      hide Run;
      ghost var whole := Upcoming();
      assert whole.Drop(0) == whole;
      var line: seq<byte> := [];
      var left := n - 1;
      while left > 0
        invariant Client() && eorStop == old(eorStop) && req.Info() == old(req.Info())
        invariant |line| <= |whole.bytes| && line == whole.bytes[..|line|]
        invariant Upcoming() == whole.Drop(|line|)
        invariant line != [] ==> left + |line| == n - 1
        invariant line == [] ==> left == n - 1
        invariant line != [] && !isClosed ==> CanUnget() && stopUnget < rdNext
        invariant LineLength(whole.bytes, n - 1) == |line| + LineLength(whole.bytes[|line|..], left)
      {
        hide Upcoming, Client;
        var c := NextOfLine(whole, line);
        if c == EOF {
          if line == [] {
            return None;
          }
          return Some(line);
        }
        assert whole.bytes[|line|..][1..] == whole.bytes[|line| + 1..];
        line := line + [c as byte];
        left := left - 1;
        if c == NEWLINE {
          break;
        }
      }
      return Some(line);
    }

    /** The byte after `line`. */
    method NextOfLine(ghost whole: Pending, ghost line: seq<byte>) returns (c: int)
      requires Client() && |line| <= |whole.bytes| && line == whole.bytes[..|line|] && Upcoming() == whole.Drop(|line|)
      modifies this`rdNext, this`buffStop, this`stop, this`stopUnget, this`contentLen, this`paddingLen, this`skip
      modifies this`fcgiErrno, this`isClosed, this`eorStop, buff, req, req.conn
      ensures Client() && eorStop == old(eorStop) && req.Info() == old(req.Info())
      ensures (c == EOF <==> |line| == |whole.bytes|) && -1 <= c < 0x100
      ensures c == EOF ==> Upcoming() == whole.Drop(|line|) && isClosed
      ensures c != EOF ==>
              |line| < |whole.bytes| && c == whole.bytes[|line|] && line + [c as byte] == whole.bytes[..|line| + 1]
      ensures c != EOF ==> Upcoming() == whole.Drop(|line| + 1) && (!isClosed ==> CanUnget() && stopUnget < rdNext)
      decreases if eorStop then 0 else 1, 5
    {
      hide Tail, Run, Upcoming, Progress;
      ghost var f, available := Unread(), Available();
      c := GetChar();
      UseProgress(whole.Drop(|line|), f, available, if c == EOF then 0 else 1);
      if c != EOF {
        DropTwice(whole, |line|, 1);
      }
    }

    lemma UseProgress(whole: Pending, f: Frame, available: seq<byte>, n: nat)
      requires Client() && Progress(whole, f, available, n)
      ensures n <= |whole.bytes| && Upcoming() == whole.Drop(n)
      ensures |Available()| <= |available|
    {
    }

    /** The stream is closed because all of it has been handed out. */
    ghost predicate AtEnd(whole: Pending)
      requires Client()
      reads this, buff, req, req.conn
    {
      isClosed && Upcoming() == whole.Drop(|whole.bytes|)
    }

    /** The reads of `ReadParams`: exactly `n` bytes, or the end of the stream. */
    method GetAll(n: nat, ghost whole: Pending) returns (str: seq<byte>)
      requires Client() && Upcoming() == whole
      modifies this`rdNext, this`buffStop, this`stop, this`stopUnget, this`contentLen, this`paddingLen, this`skip
      modifies this`fcgiErrno, this`isClosed, this`eorStop, buff, req, req.conn
      ensures Client() && eorStop == old(eorStop) && req.Info() == old(req.Info())
      ensures |Available()| <= |old(Available())|
      ensures |str| == Min(n, |whole.bytes|) && str == whole.bytes[..|str|]
      ensures Upcoming() == whole.Drop(|str|)
      ensures |str| < n ==> AtEnd(whole)
      ensures 0 < n == |str| ==> !isClosed
      decreases if eorStop then 0 else 1, 5
    {
      hide Upcoming;
      ghost var f, available := Unread(), Available();
      str := GetStr(n);
      UseProgress(whole, f, available, |str|);
      if |str| < n {
        assert str == whole.bytes;
      }
    }

    /** A length of one or four bytes whose first byte has been read; negative when the stream ends. */
    method ReadLength(c: byte, ghost whole: Pending) returns (len: int)
      requires Client() && !isClosed && whole.bytes != [] && c == whole.bytes[0] && Upcoming() == whole.Drop(1)
      modifies this`rdNext, this`buffStop, this`stop, this`stopUnget, this`contentLen, this`paddingLen, this`skip
      modifies this`fcgiErrno, this`isClosed, this`eorStop, buff, req, req.conn
      ensures Client() && eorStop == old(eorStop) && req.Info() == old(req.Info())
      ensures |Available()| <= |old(Available())|
      ensures match DecodeLength(whole.bytes)
              case None => len == -1 && AtEnd(whole)
              case Some((n, k)) => len == n && Upcoming() == whole.Drop(k) && !isClosed
      decreases if eorStop then 0 else 1, 6
    {
      hide Upcoming;
      if c < 0x80 {
        return c;
      }
      ghost var bs := whole.bytes;
      var lenBuff := GetAll(3, whole.Drop(1));
      DropTwice(whole, 1, |lenBuff|);
      if |lenBuff| != 3 {
        assert AtEnd(whole) by {
          DropTwice(whole, 1, |whole.bytes| - 1);
        }
        return -1;
      }
      assert lenBuff == bs[1..4];
      assert lenBuff[0] == bs[1] && lenBuff[1] == bs[2] && lenBuff[2] == bs[3];
      return (c as int - 0x80) * 0x100_0000 + lenBuff[0] as int * 0x1_0000 + lenBuff[1] as int * 0x100
          + lenBuff[2] as int;
    }

    lemma EndOfRest(whole: Pending, n: nat)
      requires Client() && n <= |whole.bytes| && AtEnd(whole.Drop(n))
      ensures AtEnd(whole)
    {
      DropTwice(whole, n, |whole.bytes| - n);
    }

    method ReadSecondLength(ghost whole: Pending) returns (len: int)
      requires Client() && Upcoming() == whole
      modifies this`rdNext, this`buffStop, this`stop, this`stopUnget, this`contentLen, this`paddingLen, this`skip
      modifies this`fcgiErrno, this`isClosed, this`eorStop, buff, req, req.conn
      ensures Client() && eorStop == old(eorStop) && req.Info() == old(req.Info())
      ensures |Available()| <= |old(Available())|
      ensures match DecodeLength(whole.bytes)
              case None => len == -1 && AtEnd(whole)
              case Some((n, k)) => len == n && Upcoming() == whole.Drop(k) && !isClosed
      decreases if eorStop then 0 else 1, 7
    {
      hide Upcoming;
      ghost var f, available := Unread(), Available();
      var c := GetChar();
      UseProgress(whole, f, available, if c == EOF then 0 else 1);
      if c == EOF {
        return -1;
      }
      len := ReadLength(c, whole);
    }

    /** The model stops here: the C code goes on with a block of the wrong size. */
    ghost predicate GaveUp(whole: Pending)
      reads this, req.conn
    {
      isClosed && fcgiErrno == UNDEFINED && (eorStop ==> req.conn.outgoing == whole.out)
    }

    method GiveUp(ghost whole: Pending, ghost n: nat)
      requires Client() && !isClosed && n <= |whole.bytes| && Upcoming() == whole.Drop(n)
      modifies this`fcgiErrno, this`isClosed
      ensures Client() && GaveUp(whole) && Available() == old(Available())
    {
      hide Run;
      SetError(UNDEFINED);
    }

    /** One turn of the loop of `ReadParams`, once the first byte has been read. */
    method ReadPair(c: byte, ghost whole: Pending) returns (nameValue: Option<seq<byte>>, overflow: bool)
      requires Client() && !isClosed && whole.bytes != [] && c == whole.bytes[0] && Upcoming() == whole.Drop(1)
      modifies this`rdNext, this`buffStop, this`stop, this`stopUnget, this`contentLen, this`paddingLen, this`skip
      modifies this`fcgiErrno, this`isClosed, this`eorStop, buff, req, req.conn
      ensures Client() && eorStop == old(eorStop) && req.Info() == old(req.Info())
      ensures |Available()| <= |old(Available())|
      ensures match DecodePair(whole.bytes)
              case None => nameValue == None && overflow == Overflows(whole.bytes)
                && if overflow then GaveUp(whole) else AtEnd(whole)
              case Some((entry, size)) => nameValue == Some(entry) && Upcoming() == whole.Drop(size)
      decreases if eorStop then 0 else 1, 8
    {
      hide Upcoming, AtEnd, GaveUp, DecodeLength, Allocatable;
      overflow := false;
      var nameLen := ReadLength(c, whole);
      if nameLen < 0 {
        return None, false;
      }
      ghost var k := DecodeLength(whole.bytes).value.1;
      ghost var afterName := whole.Drop(k);
      var valueLen := ReadSecondLength(afterName);
      if valueLen < 0 {
        EndOfRest(whole, k);
        return None, false;
      }
      ghost var m := DecodeLength(afterName.bytes).value.1;
      DropTwice(whole, k, m);
      ghost var start := k + m;
      if !Allocatable(nameLen, valueLen) {
        GiveUp(whole, start);
        return None, true;
      }
      nameValue := ReadNameValue(nameLen, valueLen, whole, start);
    }

    lemma NameThenValue(whole: Pending, start: nat, n: nat, m: nat)
      requires start + n + m <= |whole.bytes|
      ensures whole.Drop(start).bytes[..n] == whole.bytes[start..start + n]
      ensures whole.Drop(start + n).bytes[..m] == whole.bytes[start + n..start + n + m]
    {
    }

    method ReadNameValue(nameLen: nat, valueLen: nat, ghost whole: Pending, ghost start: nat)
      returns (nameValue: Option<seq<byte>>)
      requires Client() && start <= |whole.bytes| && Upcoming() == whole.Drop(start)
      modifies this`rdNext, this`buffStop, this`stop, this`stopUnget, this`contentLen, this`paddingLen, this`skip
      modifies this`fcgiErrno, this`isClosed, this`eorStop, buff, req, req.conn
      ensures Client() && eorStop == old(eorStop) && req.Info() == old(req.Info())
      ensures |Available()| <= |old(Available())|
      ensures var middle, end := start + nameLen, start + nameLen + valueLen;
              if |whole.bytes| < end then nameValue == None && AtEnd(whole)
              else
                && nameValue == Some(Joined(Pair(whole.bytes[start..middle], whole.bytes[middle..end])))
                && Upcoming() == whole.Drop(end)
      decreases if eorStop then 0 else 1, 6
    {
      hide Upcoming;
      hide AtEnd;
      var name := GetAll(nameLen, whole.Drop(start));
      if |name| != nameLen {
        EndOfRest(whole, start);
        return None;
      }
      DropTwice(whole, start, nameLen);
      var value := GetAll(valueLen, whole.Drop(start + nameLen));
      if |value| != valueLen {
        EndOfRest(whole, start + nameLen);
        return None;
      }
      DropTwice(whole, start + nameLen, valueLen);
      NameThenValue(whole, start, nameLen, valueLen);
      return Some(name + [EQUALS] + value);
    }

    /** `ReadParams`: the whole stream as name-value pairs, appended to the environment. */
    method ReadParams(params: Params) returns (status: int)
      requires Client() && params.Valid()
      modifies this`rdNext, this`buffStop, this`stop, this`stopUnget, this`contentLen, this`paddingLen, this`skip
      modifies this`fcgiErrno, this`isClosed, this`eorStop, buff, req, req.conn
      modifies params, params.vec
      ensures Client() && eorStop == old(eorStop) && req.Info() == old(req.Info())
      ensures |Available()| <= |old(Available())|
      ensures params.Valid() && (params.vec == old(params.vec) || fresh(params.vec))
      ensures params.contents == old(params.contents) + ParsePairs(old(Upcoming()).bytes).entries
      ensures status ==
              match ParsePairs(old(Upcoming()).bytes).end
              case Between => 0
              case Inside => -1
              case Overflow => UNDEFINED
      ensures isClosed && (status == UNDEFINED ==> GaveUp(old(Upcoming())))
      ensures status != UNDEFINED ==> req.conn.outgoing == old(Upcoming()).out
      ensures status == 0 ==> AtEnd(old(Upcoming()))
      ensures status == -1 ==>
                fcgiErrno == if old(Upcoming()).end.Fault? then old(Upcoming()).end.code else PARAMS_ERROR
      decreases if eorStop then 0 else 1, 11
    {
      ghost var whole := Upcoming();
      ghost var n, before := 0, params.contents;
      NothingParsed(whole, before);
      hide Upcoming, AtEnd, DecodePair, ParsePairs, ParsedUpTo, Available, Progress;
      hide params.Valid;
      while true
        invariant Client() && eorStop == old(eorStop) && req.Info() == old(req.Info())
        invariant |Available()| <= |old(Available())|
        invariant params.Valid() && (params.vec == old(params.vec) || fresh(params.vec))
        invariant n <= |whole.bytes| && Upcoming() == whole.Drop(n)
        invariant ParsedUpTo(whole.bytes, n, before, params.contents)
        decreases |whole.bytes| - n
      {
        var next;
        next, n := ReadParam(params, whole, n, before);
        if next != More {
          return if next == End then 0 else if next == Broken then -1 else UNDEFINED;
        }
      }
    }

    /** One turn of the loop of `ReadParams`. */
    method ReadParam(params: Params, ghost whole: Pending, ghost n: nat, ghost before: seq<seq<byte>>)
      returns (next: Turn, ghost n': nat)
      requires Client() && params.Valid()
      requires n <= |whole.bytes| && Upcoming() == whole.Drop(n)
      requires ParsedUpTo(whole.bytes, n, before, params.contents)
      modifies this`rdNext, this`buffStop, this`stop, this`stopUnget, this`contentLen, this`paddingLen, this`skip
      modifies this`fcgiErrno, this`isClosed, this`eorStop, buff, req, req.conn
      modifies params, params.vec
      ensures Client() && eorStop == old(eorStop) && req.Info() == old(req.Info())
      ensures |Available()| <= |old(Available())|
      ensures params.Valid() && (params.vec == old(params.vec) || fresh(params.vec))
      ensures next == More ==>
                && n < n' <= |whole.bytes| && Upcoming() == whole.Drop(n')
                && ParsedUpTo(whole.bytes, n', before, params.contents)
      ensures next != More ==>
                && isClosed && params.contents == before + ParsePairs(whole.bytes).entries
                && ParsePairs(whole.bytes).end ==
                   if next == End then Between else if next == Broken then Inside else Overflow
      ensures next == End || next == Broken ==> req.conn.outgoing == whole.out
      ensures next == Undefined ==> GaveUp(whole)
      ensures next == End ==> AtEnd(whole)
      ensures next == Broken ==> fcgiErrno == if whole.end.Fault? then whole.end.code else PARAMS_ERROR
      decreases if eorStop then 0 else 1, 10
    {
      hide Upcoming;
      hide AtEnd;
      hide DecodePair;
      hide ParsePairs;
      hide ParsedUpTo;
      var nameValue;
      nameValue, next := ReadNext(whole, n);
      n' := n;
      if nameValue == None {
        ParsedAll(whole.bytes, n, before, params.contents);
        if next == Broken {
          SetParamsError(whole);
        }
        return;
      }
      var entry := nameValue.value;
      ghost var size := DecodePair(whole.bytes[n..]).value.1;
      ParsedFurther(whole.bytes, n, before, params.contents, entry, size);
      Append(params, entry);
      return More, n + size;
    }

    method Append(params: Params, nameValue: seq<byte>)
      requires Client() && params.Valid()
      modifies params, params.vec
      ensures params.Valid() && (params.vec == old(params.vec) || fresh(params.vec))
      ensures params.contents == old(params.contents) + [nameValue]
      ensures Upcoming() == old(Upcoming()) && Available() == old(Available())
    {
      params.PutParam(nameValue);
    }

    /** The next pair of a stream, if a whole one is left. */
    method ReadNext(ghost whole: Pending, ghost n: nat) returns (nameValue: Option<seq<byte>>, next: Turn)
      requires Client() && n <= |whole.bytes| && Upcoming() == whole.Drop(n)
      modifies this`rdNext, this`buffStop, this`stop, this`stopUnget, this`contentLen, this`paddingLen, this`skip
      modifies this`fcgiErrno, this`isClosed, this`eorStop, buff, req, req.conn
      ensures Client() && eorStop == old(eorStop) && req.Info() == old(req.Info())
      ensures |Available()| <= |old(Available())|
      ensures match DecodePair(whole.bytes[n..])
              case None =>
                && nameValue == None && isClosed
                && next == (if n == |whole.bytes| then End
                            else if Overflows(whole.bytes[n..]) then Undefined else Broken)
                && if next == Undefined then GaveUp(whole) else AtEnd(whole) && req.conn.outgoing == whole.out
              case Some((entry, size)) =>
                nameValue == Some(entry) && n + size <= |whole.bytes| && Upcoming() == whole.Drop(n + size)
      decreases if eorStop then 0 else 1, 9
    {
      hide Upcoming;
      ghost var f, available := Unread(), Available();
      var c := GetChar();
      UseProgress(whole.Drop(n), f, available, if c == EOF then 0 else 1);
      if c == EOF {
        AtEndOf(whole, n);
        return None, End;
      }
      var overflow;
      nameValue, overflow := ReadPair(c, whole.Drop(n));
      next := if nameValue != None then More else if overflow then Undefined else Broken;
      if next == Broken {
        EndOfRest(whole, n);
        EndOutput(whole);
      } else if next == More {
        DropTwice(whole, n, DecodePair(whole.bytes[n..]).value.1);
      }
    }

    lemma EndOutput(whole: Pending)
      requires Client() && AtEnd(whole)
      ensures req.conn.outgoing == whole.out
    {
    }

    lemma AtEndOf(whole: Pending, n: nat)
      requires Client() && isClosed && n <= |whole.bytes| && Upcoming() == whole.Drop(n) && whole.Drop(n).bytes == []
      ensures AtEnd(whole) && req.conn.outgoing == whole.out && n == |whole.bytes|
      ensures DecodePair(whole.bytes[n..]) == None
    {
      assert n == |whole.bytes|;
    }

    method SetParamsError(ghost whole: Pending)
      requires Client() && AtEnd(whole)
      modifies this`fcgiErrno, this`isClosed
      ensures Client() && isClosed
      ensures fcgiErrno == if whole.end.Fault? then whole.end.code else PARAMS_ERROR
      ensures req.conn.outgoing == whole.out && Available() == old(Available())
    {
      SetError(PARAMS_ERROR);
    }

    /** `SetReaderType`: go on with the records of another type. Padding that is still pending
      * is forgotten, not skipped. A stream that has failed is opened again with its error kept.
      */
    method SetReaderType(kind: byte)
      requires Core()
      modifies this`kind, this`eorStop, this`skip, this`contentLen, this`paddingLen, this`stop, this`isClosed
      ensures Core() && !isClosed && !eorStop && this.kind == kind && rdNext == stop && Unread() == NO_FRAME
      ensures Available() == old(Available())
      ensures fcgiErrno == 0 ==>
          Valid() && Upcoming() == Run(Setting(), NO_FRAME, req.Info(), req.conn.outgoing, Available())
    {
      this.kind := kind;
      eorStop, skip, contentLen, paddingLen := false, false, 0, 0;
      stop := rdNext;
      isClosed := false;
    }

    /** `FCGX_FClose` on an input stream. */
    method FClose() returns (status: int)
      requires Valid()
      modifies this`wasFCloseCalled, this`isClosed, this`stop
      ensures Valid() && wasFCloseCalled
      ensures !old(wasFCloseCalled) ==> isClosed && Upcoming().bytes == []
      ensures old(wasFCloseCalled) ==> Upcoming() == old(Upcoming())
      ensures status == if fcgiErrno == 0 then 0 else EOF
    {
      if !wasFCloseCalled {
        wasFCloseCalled := true;
        isClosed := true;
        stop := rdNext;
      }
      return if fcgiErrno == 0 then 0 else EOF;
    }

    /** Report the end of the record as the end of the stream. */
    method EndRecord()
      requires Core() && !isClosed && fcgiErrno == 0
      requires eorStop && contentLen == 0 && paddingLen == 0
      modifies this`stop, this`isClosed
      ensures Valid() && isClosed && rdNext == stop && fcgiErrno == 0
      ensures Filled(old(Edge([]))) && !old(Edge([])).Begins()
    {
      assert Available()[0..] == Available();
      stop := rdNext;
      isClosed := true;
    }

    /** Give the client all the content bytes that are in the buffer. */
    method Deliver()
      requires Core() && !isClosed && fcgiErrno == 0
      requires rdNext < buffStop && 0 < contentLen && !skip
      modifies this`stop, this`contentLen
      ensures Valid() && !isClosed && rdNext < stop
      ensures Filled(old(Position([]))) && !old(Position([])).Begins()
      ensures Available() == old(Available())
      ensures Unread() == Frame(old(contentLen), paddingLen, false)
    {
      var count := Min(contentLen, buffStop - rdNext);
      contentLen := contentLen - count;
      stop := rdNext + count;
    }
  }
}
