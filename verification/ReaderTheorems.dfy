/** What the byte-level reading of `ReaderSpec` comes to on a wire made of records: the reader
  * removes headers, padding, records of other requests and management records, and gives the
  * client the contents of the records of its own stream. Its flaws on such wires are
  * characterised exactly: a skipped record without content takes the next content with it, be it
  * data or a query to answer, and the content of a management record of unknown type is given to
  * the client.
  */
module ReaderTheorems {
  import opened Basics
  import opened FcgiProtocol
  import opened FcgiConnection
  import opened NameValue
  import opened ReaderSpec

  /** A record of the stream being read. */
  predicate Own(kind: byte, req: Begin, r: Record) {
    r.kind == kind && r.id == req.id && r.id != NULL_REQUEST_ID && r.kind != BEGIN_REQUEST
  }

  /** A record that is none of this request's business. */
  predicate Foreign(req: Begin, r: Record) {
    r.id != NULL_REQUEST_ID && if r.kind == BEGIN_REQUEST then req.begun && |r.content| == 8 else r.id != req.id
  }

  /** A management record of a type the library does not know. Its content is not read. */
  predicate Unknown(r: Record) {
    r.id == NULL_REQUEST_ID && r.kind != BEGIN_REQUEST && r.kind != GET_VALUES
  }

  /** A management record that asks for values. */
  predicate Query(r: Record) {
    r.id == NULL_REQUEST_ID && r.kind == GET_VALUES
  }

  predicate AnswerableContent(content: seq<byte>) {
    ParsePairs(content).Ok() && Answerable(ParsePairs(content).entries)
  }

  /** A management record the library can answer. While it skips, it does not look at what is asked for. */
  predicate Management(r: Record, skip: bool) {
    Unknown(r) || (Query(r) && (skip || AnswerableContent(r.content)))
  }

  /** A record that may come before the end of a stream. */
  predicate Acceptable(kind: byte, req: Begin, r: Record, skip: bool) {
    ValidRecord(r) && ((Own(kind, req, r) && r.content != []) || Foreign(req, r) || Management(r, skip))
  }

  /** The reader's `skip` flag after a record. Only content clears it. */
  function SkipAfter(req: Begin, r: Record, skip: bool): bool {
    if r.content != [] then false
    else skip || Foreign(req, r)
  }

  /** Records that may come before the end of a stream, for a reader that begins with `skip`. */
  predicate AllAcceptable(kind: byte, req: Begin, rs: seq<Record>, skip: bool) {
    rs == [] || (Acceptable(kind, req, rs[0], skip) && AllAcceptable(kind, req, rs[1..], SkipAfter(req, rs[0], skip)))
  }

  /** The record that ends a stream. */
  predicate Ending(kind: byte, req: Begin, r: Record) {
    ValidRecord(r) && Own(kind, req, r) && r.content == []
  }

  /** A record that begins a request, where none has begun. */
  predicate BeginsRequest(req: Begin, r: Record) {
    r.kind == BEGIN_REQUEST && r.id != NULL_REQUEST_ID && |r.content| == 8 && !req.begun
  }

  // ------------------------------------------ the reading, one record at a time

  function DeliveredOf(kind: byte, req: Begin, r: Record, skip: bool): seq<byte> {
    if (Own(kind, req, r) || Unknown(r)) && !skip then r.content else []
  }

  /** A GET_VALUES record that is skipped is answered as if it were empty. */
  lemma GetValuesAnswered(r: Record, skip: bool)
    ensures Management(r, skip) && r.kind == GET_VALUES ==>
      var parsed := ParsePairs(if skip then [] else r.content); parsed.Ok() && GetValuesResult(parsed.entries).Some?
  {
    AnsweredExactly(ParsePairs(r.content).entries);
    AnsweredExactly([]);
    hide GetValuesResult;
    assert ReplySize([]) == 0;
  }

  function ReplyOf(req: Begin, r: Record, skip: bool): seq<byte>
    requires Foreign(req, r) || Management(r, skip)
  {
    GetValuesAnswered(r, skip);
    if r.kind == BEGIN_REQUEST then CantMultiplex(r.id)
    else if r.id != NULL_REQUEST_ID then []
    else if r.kind == GET_VALUES then
      GetValuesResult(ParsePairs(if skip then [] else r.content).entries).value
    else Encode(UnknownTypeRecord(r.kind))
  }

  function Delivered(kind: byte, req: Begin, rs: seq<Record>, skip: bool): seq<byte> {
    if rs == [] then []
    else DeliveredOf(kind, req, rs[0], skip) + Delivered(kind, req, rs[1..], SkipAfter(req, rs[0], skip))
  }

  function Replies(kind: byte, req: Begin, rs: seq<Record>, skip: bool): seq<byte>
    requires AllAcceptable(kind, req, rs, skip)
  {
    if rs == [] then []
    else
      (if Foreign(req, rs[0]) || Management(rs[0], skip) then ReplyOf(req, rs[0], skip) else [])
      + Replies(kind, req, rs[1..], SkipAfter(req, rs[0], skip))
  }

  function SkipAtEnd(req: Begin, rs: seq<Record>, skip: bool): bool {
    if rs == [] then skip else SkipAtEnd(req, rs[1..], SkipAfter(req, rs[0], skip))
  }

  lemma FinishPadding(env: Env, skip: bool, req: Begin, out: seq<byte>, padding: seq<byte>, rest: seq<byte>)
    ensures Run(env, Frame(0, |padding|, skip), req, out, padding + rest) == Run(env, Frame(0, 0, skip), req, out, rest)
    ensures Boundary(env, |padding|, skip, req, out, padding + rest) == Run(env, Frame(0, 0, skip), req, out, rest)
  {
    hide Run, Boundary;
    RunAtBoundary(env, Frame(0, |padding|, skip), req, out, padding + rest);
    RunAtBoundary(env, Frame(0, 0, skip), req, out, rest);
    BoundaryPads(env, |padding|, skip, req, out, padding + rest, |padding|);
    assert (padding + rest)[|padding|..] == rest;
  }

  /** After the header of a record whose content is delivered. */
  lemma FinishOwn(env: Env, req: Begin, out: seq<byte>, r: Record, rest: seq<byte>)
    ensures Run(env, Frame(|r.content|, |r.padding|, false), req, out, r.content + r.padding + rest)
            == Prepend(r.content, Run(env, NO_FRAME, req, out, rest))
  {
    hide Run, Boundary;
    var body := r.content + r.padding + rest;
    RunDelivers(env, Frame(|r.content|, |r.padding|, false), req, out, body, |r.content|);
    assert body[..|r.content|] == r.content && body[|r.content|..] == r.padding + rest;
    FinishPadding(env, false, req, out, r.padding, rest);
  }

  /** After the header of a record whose content is skipped. */
  lemma FinishSkipped(env: Env, req: Begin, out: seq<byte>, r: Record, rest: seq<byte>)
    ensures Run(env, Frame(|r.content|, |r.padding|, true), req, out, r.content + r.padding + rest)
            == Run(env, Frame(0, 0, r.content == []), req, out, rest)
  {
    var body := r.content + r.padding + rest;
    assert body[|r.content|..] == r.padding + rest;
    FinishPadding(env, false, req, out, r.padding, rest);
    FinishPadding(env, true, req, out, r.padding, rest);
    if r.content == [] {
      assert body == r.padding + rest;
    } else {
      assert Run(env, Frame(|r.content|, |r.padding|, true), req, out, body)
          == Boundary(env, |r.padding|, false, req, out, body[|r.content|..]);
    }
  }

  function Head(r: Record): (h: seq<byte>)
    requires ValidRecord(r)
    ensures |h| == HEADER_LEN
  {
    Header(r.kind, r.id, |r.content|, |r.padding|, r.reserved)
  }

  lemma AtHead(env: Env, skip: bool, req: Begin, out: seq<byte>, r: Record, body: seq<byte>)
    requires ValidRecord(r)
    ensures Run(env, Frame(0, 0, skip), req, out, Head(r) + body) == Dispatch(env, Head(r), skip, req, out, body)
    ensures FrameOf(Head(r), skip) == Frame(|r.content|, |r.padding|, skip)
    ensures Head(r)[0] == VERSION_1 && Head(r)[1] == r.kind && HeaderId(Head(r)) == r.id
  {
    HeaderFields(r.kind, r.id, |r.content|, |r.padding|, r.reserved);
    BoundaryDispatches(env, skip, req, out, Head(r), body);
    RunAtBoundary(env, Frame(0, 0, skip), req, out, Head(r) + body);
  }

  lemma AtHeader(env: Env, skip: bool, req: Begin, out: seq<byte>, r: Record, rest: seq<byte>)
    requires ValidRecord(r)
    ensures Run(env, Frame(0, 0, skip), req, out, Encode(r) + rest)
            == Dispatch(env, Head(r), skip, req, out, r.content + r.padding + rest)
    ensures FrameOf(Head(r), skip) == Frame(|r.content|, |r.padding|, skip)
    ensures Head(r)[0] == VERSION_1 && Head(r)[1] == r.kind && HeaderId(Head(r)) == r.id
  {
    AtHead(env, skip, req, out, r, r.content + r.padding + rest);
    assert Encode(r) + rest == Head(r) + (r.content + r.padding + rest);
  }

  lemma ReadOwn(env: Env, skip: bool, req: Begin, out: seq<byte>, r: Record, rest: seq<byte>)
    requires ValidRecord(r) && Own(env.kind, req, r) && r.content != []
    ensures Run(env, Frame(0, 0, skip), req, out, Encode(r) + rest)
            == Prepend(if skip then [] else r.content, Run(env, NO_FRAME, req, out, rest))
  {
    AtHeader(env, skip, req, out, r, rest);
    FinishOwn(env, req, out, r, rest);
    FinishSkipped(env, req, out, r, rest);
  }

  lemma ReadForeign(env: Env, skip: bool, req: Begin, out: seq<byte>, r: Record, rest: seq<byte>)
    requires ValidRecord(r) && Foreign(req, r)
    requires Accepts(env.limit, out, |ReplyOf(req, r, skip)|)
    ensures Run(env, Frame(0, 0, skip), req, out, Encode(r) + rest)
            == Run(env, Frame(0, 0, r.content == []), req, out + ReplyOf(req, r, skip), rest)
  {
    AtHeader(env, skip, req, out, r, rest);
    FinishSkipped(env, req, out + ReplyOf(req, r, skip), r, rest);
    assert out + [] == out;
  }

  /** A management record of unknown type: the reply, and then its content as if it were the stream's. */
  lemma ReadUnknown(env: Env, skip: bool, req: Begin, out: seq<byte>, r: Record, rest: seq<byte>)
    requires ValidRecord(r) && Unknown(r)
    requires Accepts(env.limit, out, |Encode(UnknownTypeRecord(r.kind))|)
    ensures Run(env, Frame(0, 0, skip), req, out, Encode(r) + rest)
            == Prepend(if skip then [] else r.content,
                       Run(env, Frame(0, 0, skip && r.content == []), req, out + Encode(UnknownTypeRecord(r.kind)),
                           rest))
  {
    AtHeader(env, skip, req, out, r, rest);
    ManageOther(env, r.kind, Frame(|r.content|, |r.padding|, skip), req, out, r.content + r.padding + rest);
    hide Run, Manage;
    if skip {
      FinishSkipped(env, req, out + Encode(UnknownTypeRecord(r.kind)), r, rest);
    } else {
      FinishOwn(env, req, out + Encode(UnknownTypeRecord(r.kind)), r, rest);
    }
  }

  lemma TailOfRecord(env: Env, skip: bool, req: Begin, out: seq<byte>, r: Record, rest: seq<byte>)
    requires rest != []
    ensures Tail(env, Frame(|r.content|, |r.padding|, skip), req, out, r.content + r.padding + rest)
            == Pending(if skip then [] else r.content, Eof, rest, out, req, Frame(0, 0, skip && r.content == []))
  {
    var body := r.content + r.padding + rest;
    assert body[|r.content|..] == r.padding + rest && body[..|r.content|] == r.content;
    assert (r.padding + rest)[|r.padding|..] == rest;
    if r.content == [] {
      assert body == r.padding + rest;
    }
  }

  lemma ReadGetValues(env: Env, skip: bool, req: Begin, out: seq<byte>, r: Record, rest: seq<byte>)
    requires ValidRecord(r) && Management(r, skip) && r.kind == GET_VALUES && rest != []
    requires Accepts(env.limit, out, |ReplyOf(req, r, skip)|)
    ensures Run(env, Frame(0, 0, skip), req, out, Encode(r) + rest)
            == Run(env, Frame(0, 0, skip && r.content == []), req, out + ReplyOf(req, r, skip), rest)
  {
    AtHeader(env, skip, req, out, r, rest);
    TailOfRecord(env, skip, req, out, r, rest);
    ManageValues(env, Frame(|r.content|, |r.padding|, skip), req, out, r.content + r.padding + rest);
    hide Tail, Manage, GetValuesResult, ParsePairs;
    GetValuesAnswered(r, skip);
  }

  /** One acceptable record: what it gives the client, what it makes the library write, and the
    * state it leaves the reader in.
    */
  lemma ReadRecord(env: Env, skip: bool, req: Begin, out: seq<byte>, r: Record, rest: seq<byte>)
    requires Acceptable(env.kind, req, r, skip) && rest != []
    requires Foreign(req, r) || Management(r, skip) ==> Accepts(env.limit, out, |ReplyOf(req, r, skip)|)
    ensures Run(env, Frame(0, 0, skip), req, out, Encode(r) + rest)
            == Prepend(DeliveredOf(env.kind, req, r, skip),
                       Run(env, Frame(0, 0, SkipAfter(req, r, skip)), req,
                           out + (if Foreign(req, r) || Management(r, skip) then ReplyOf(req, r, skip) else []), rest))
  {
    hide Run;
    if Own(env.kind, req, r) && r.content != [] {
      ReadOwn(env, skip, req, out, r, rest);
      assert out + [] == out;
    } else if Foreign(req, r) {
      ReadForeign(env, skip, req, out, r, rest);
    } else if r.kind == GET_VALUES {
      ReadGetValues(env, skip, req, out, r, rest);
    } else {
      ReadUnknown(env, skip, req, out, r, rest);
    }
  }

  /** The header of an ending record is all the reader looks at. */
  lemma ReadEnd(env: Env, skip: bool, req: Begin, out: seq<byte>, r: Record, tail: seq<byte>)
    requires Ending(env.kind, req, r)
    ensures Run(env, Frame(0, 0, skip), req, out, Head(r) + tail)
            == Pending([], Eof, tail, out, req, Frame(0, |r.padding|, skip))
  {
    AtHead(env, skip, req, out, r, tail);
  }

  // ------------------------------------------------------------ whole streams

  /** Reading a list of records with something after it. */
  lemma {:induction false} ReadRecords(env: Env, req: Begin, rs: seq<Record>, skip: bool, out: seq<byte>,
                                       rest: seq<byte>)
    requires AllAcceptable(env.kind, req, rs, skip) && ValidRecords(rs) && rest != []
    requires Accepts(env.limit, out, |Replies(env.kind, req, rs, skip)|)
    ensures Run(env, Frame(0, 0, skip), req, out, EncodeAll(rs) + rest)
            == Prepend(Delivered(env.kind, req, rs, skip),
                       Run(env, Frame(0, 0, SkipAtEnd(req, rs, skip)), req,
                           out + Replies(env.kind, req, rs, skip), rest))
  {
    if rs == [] {
      hide Run;
      assert out + [] == out && [] + rest == rest;
      assert [] + Run(env, Frame(0, 0, skip), req, out, rest).bytes
          == Run(env, Frame(0, 0, skip), req, out, rest).bytes;
    } else {
      hide Run, Encode, ReplyOf, Acceptable, DeliveredOf;
      var r, more := rs[0], EncodeAll(rs[1..]) + rest;
      var after := SkipAfter(req, r, skip);
      var reply := if Foreign(req, r) || Management(r, skip) then ReplyOf(req, r, skip) else [];
      var replies := Replies(env.kind, req, rs[1..], after);
      assert EncodeAll(rs) + rest == Encode(r) + more;
      ReadRecord(env, skip, req, out, r, more);
      ReadRecords(env, req, rs[1..], after, out + reply, rest);
      Associate(out, reply, replies);
      Associate(DeliveredOf(env.kind, req, r, skip), Delivered(env.kind, req, rs[1..], after),
                 Run(env, Frame(0, 0, SkipAtEnd(req, rs, skip)), req, out + reply + replies, rest).bytes);
    }
  }

  /** Reading a list of records and the header of the record that ends the stream. */
  lemma ReadStream(env: Env, req: Begin, rs: seq<Record>, skip: bool, out: seq<byte>, end: Record, tail: seq<byte>)
    requires AllAcceptable(env.kind, req, rs, skip) && ValidRecords(rs) && Ending(env.kind, req, end)
    requires Accepts(env.limit, out, |Replies(env.kind, req, rs, skip)|)
    ensures Run(env, Frame(0, 0, skip), req, out, EncodeAll(rs) + (Head(end) + tail))
            == Pending(Delivered(env.kind, req, rs, skip), Eof, tail,
                       out + Replies(env.kind, req, rs, skip), req, Frame(0, |end.padding|, SkipAtEnd(req, rs, skip)))
  {
    assert |Head(end) + tail| >= HEADER_LEN;
    ReadRecords(env, req, rs, skip, out, Head(end) + tail);
    ReadEnd(env, SkipAtEnd(req, rs, skip), req, out + Replies(env.kind, req, rs, skip), end, tail);
    hide Run;
    assert Delivered(env.kind, req, rs, skip) + [] == Delivered(env.kind, req, rs, skip);
  }

  lemma EndApart(before: seq<byte>, end: Record, tail: seq<byte>)
    requires ValidRecord(end) && end.content == []
    ensures before + Encode(end) + tail == before + (Head(end) + (end.padding + tail))
  {
  }

  /** What section 3.3 and 5.3 make of the stream: the contents of its own records. */
  function Contents(kind: byte, req: Begin, rs: seq<Record>): seq<byte> {
    if rs == [] then []
    else (if Own(kind, req, rs[0]) then rs[0].content else []) + Contents(kind, req, rs[1..])
  }

  /** Record `i` is skipped and empty, and so far no record with content has followed it. */
  predicate SkippingSince(req: Begin, rs: seq<Record>, i: int, j: int) {
    && 0 <= i < j <= |rs|
    && Foreign(req, rs[i])
    && forall k :: i <= k < j ==> rs[k].content == []
  }

  /** The reader is skipping when it gets to record `j`: because of an earlier record, or from the start. */
  ghost predicate Skipping(req: Begin, rs: seq<Record>, skip: bool, j: int) {
    || (exists i :: SkippingSince(req, rs, i, j))
    || (skip && 0 <= j <= |rs| && forall k :: 0 <= k < j ==> rs[k].content == [])
  }

  predicate IsOwn(kind: byte, req: Begin, rs: seq<Record>, j: int) {
    0 <= j < |rs| && Own(kind, req, rs[j]) && rs[j].content != []
  }

  predicate IsUnknown(rs: seq<Record>, j: int) {
    0 <= j < |rs| && Unknown(rs[j]) && rs[j].content != []
  }

  /** Some record of the stream is read while skipping. */
  ghost predicate Swallows(kind: byte, req: Begin, rs: seq<Record>, skip: bool) {
    exists j :: IsOwn(kind, req, rs, j) && Skipping(req, rs, skip, j)
  }

  /** Some management record of unknown type, with content, is read while not skipping. */
  ghost predicate Leaks(req: Begin, rs: seq<Record>, skip: bool) {
    exists j :: IsUnknown(rs, j) && !Skipping(req, rs, skip, j)
  }

  lemma SkippingStep(req: Begin, rs: seq<Record>, skip: bool, j: int)
    requires 0 < j <= |rs|
    ensures Skipping(req, rs, skip, j) <==> Skipping(req, rs[1..], SkipAfter(req, rs[0], skip), j - 1)
  {
    var rest, after, h := rs[1..], SkipAfter(req, rs[0], skip), j - 1;
    assert forall k :: 0 < k < |rs| ==> rs[k] == rest[k - 1];
    assert forall k :: 0 <= k < |rest| ==> rest[k] == rs[k + 1];
    if i :| SkippingSince(req, rs, i, j) {
      assert i > 0 ==> SkippingSince(req, rest, i - 1, h);
    }
    if i :| SkippingSince(req, rest, i, h) {
      assert SkippingSince(req, rs, i + 1, j);
    }
    if after && forall k :: 0 <= k < h ==> rest[k].content == [] {
      assert skip || SkippingSince(req, rs, 0, j);
    }
  }

  lemma SkippingStart(req: Begin, rs: seq<Record>, skip: bool)
    ensures Skipping(req, rs, skip, 0) <==> skip
  {
  }

  lemma SwallowsStep(kind: byte, req: Begin, rs: seq<Record>, skip: bool)
    requires rs != []
    ensures Swallows(kind, req, rs, skip) <==>
            (skip && IsOwn(kind, req, rs, 0)) || Swallows(kind, req, rs[1..], SkipAfter(req, rs[0], skip))
  {
    hide Skipping, SkipAfter, Own;
    var rest, after := rs[1..], SkipAfter(req, rs[0], skip);
    SkippingStart(req, rs, skip);
    if j :| IsOwn(kind, req, rs, j) && Skipping(req, rs, skip, j) {
      if j > 0 {
        SkippingStep(req, rs, skip, j);
        assert IsOwn(kind, req, rest, j - 1);
      }
    }
    if j :| IsOwn(kind, req, rest, j) && Skipping(req, rest, after, j) {
      SkippingStep(req, rs, skip, j + 1);
      assert IsOwn(kind, req, rs, j + 1);
    }
  }

  lemma LeaksStep(req: Begin, rs: seq<Record>, skip: bool)
    requires rs != []
    ensures Leaks(req, rs, skip) <==> (!skip && IsUnknown(rs, 0)) || Leaks(req, rs[1..], SkipAfter(req, rs[0], skip))
  {
    hide Skipping, SkipAfter, Unknown;
    var rest, after := rs[1..], SkipAfter(req, rs[0], skip);
    SkippingStart(req, rs, skip);
    if j :| IsUnknown(rs, j) && !Skipping(req, rs, skip, j) {
      if j > 0 {
        SkippingStep(req, rs, skip, j);
        assert IsUnknown(rest, j - 1);
      }
    }
    if j :| IsUnknown(rest, j) && !Skipping(req, rest, after, j) {
      SkippingStep(req, rs, skip, j + 1);
      assert IsUnknown(rs, j + 1);
    }
  }

  /** What swallowing and leaking do to the stream. Bytes are lost exactly when something is swallowed, and gained
    * exactly when something leaks. (When both happen, what is gained may by chance be what was lost.)
    */
  lemma {:induction false} DeliveryIsExact(kind: byte, req: Begin, rs: seq<Record>, skip: bool)
    requires AllAcceptable(kind, req, rs, skip)
    ensures var given, sent := Delivered(kind, req, rs, skip), Contents(kind, req, rs);
      && (!Leaks(req, rs, skip) ==> |given| <= |sent| && (given == sent <==> !Swallows(kind, req, rs, skip)))
      && (!Swallows(kind, req, rs, skip) ==> |given| >= |sent| && (given == sent <==> !Leaks(req, rs, skip)))
  {
    hide Swallows, Leaks;
    if rs == [] {
      NothingRead(kind, req, skip);
    } else {
      var after := SkipAfter(req, rs[0], skip);
      SwallowsStep(kind, req, rs, skip);
      LeaksStep(req, rs, skip);
      DeliveryIsExact(kind, req, rs[1..], after);
      var first := if Own(kind, req, rs[0]) then rs[0].content else [];
      if DeliveredOf(kind, req, rs[0], skip) == first {
        SamePrefix(first, Delivered(kind, req, rs[1..], after), Contents(kind, req, rs[1..]));
      }
    }
  }

  lemma NothingRead(kind: byte, req: Begin, skip: bool)
    ensures !Swallows(kind, req, [], skip) && !Leaks(req, [], skip)
  {
  }

  lemma SamePrefix(a: seq<byte>, b: seq<byte>, c: seq<byte>)
    ensures a + b == a + c <==> b == c
  {
    if a + b == a + c {
      assert b == (a + b)[|a|..] && c == (a + c)[|a|..];
    }
  }

  // ------------------------------------------------------------ what is due

  /** What section 4.1 and 4.2 make of a record: the reply to it, if the library can give it. */
  function DueFor(r: Record): Option<seq<byte>> {
    if r.kind == BEGIN_REQUEST then Some(CantMultiplex(r.id))
    else if r.id != NULL_REQUEST_ID then Some([])
    else if r.kind != GET_VALUES then Some(Encode(UnknownTypeRecord(r.kind)))
    else if ParsePairs(r.content).Ok() then GetValuesResult(ParsePairs(r.content).entries)
    else None
  }

  function Due(rs: seq<Record>): Option<seq<byte>> {
    if rs == [] then Some([])
    else
      match (DueFor(rs[0]), Due(rs[1..]))
      case (Some(first), Some(rest)) => Some(first + rest)
      case _ => None
  }

  /** No variable the library knows is asked for. */
  predicate AsksForNothing(content: seq<byte>) {
    AnswerableContent(content) && ReplySize(ParsePairs(content).entries) == 0
  }

  predicate IsQuery(rs: seq<Record>, j: int) {
    0 <= j < |rs| && Query(rs[j]) && !AsksForNothing(rs[j].content)
  }

  /** Some query is read while skipping. */
  ghost predicate Misanswers(req: Begin, rs: seq<Record>, skip: bool) {
    exists j :: IsQuery(rs, j) && Skipping(req, rs, skip, j)
  }

  lemma MisanswersStep(req: Begin, rs: seq<Record>, skip: bool)
    requires rs != []
    ensures Misanswers(req, rs, skip)
        <==> (skip && IsQuery(rs, 0)) || Misanswers(req, rs[1..], SkipAfter(req, rs[0], skip))
  {
    hide Skipping, SkipAfter, Query, AsksForNothing;
    var rest, after := rs[1..], SkipAfter(req, rs[0], skip);
    SkippingStart(req, rs, skip);
    if j :| IsQuery(rs, j) && Skipping(req, rs, skip, j) {
      if j > 0 {
        SkippingStep(req, rs, skip, j);
        assert IsQuery(rest, j - 1);
      }
    }
    if j :| IsQuery(rest, j) && Skipping(req, rest, after, j) {
      SkippingStep(req, rs, skip, j + 1);
      assert IsQuery(rs, j + 1);
    }
  }

  /** An empty reply is shorter than one with values. */
  lemma ReplyMeasured(entries: seq<seq<byte>>)
    ensures GetValuesResult([]).Some?
    ensures var due, given := GetValuesResult(entries), GetValuesResult([]).value;
      && (due.Some? ==> |given| <= |due.value| && (|given| == |due.value| ==> given == due.value))
      && (due == Some(given) <==> Answerable(entries) && ReplySize(entries) == 0)
  {
    RepliesMeasured(entries);
    AnsweredExactly(entries);
    hide Asked, NameOf, Ascii;
  }

  lemma OneReply(kind: byte, req: Begin, r: Record, skip: bool)
    requires Acceptable(kind, req, r, skip)
    ensures var given := if Foreign(req, r) || Management(r, skip) then ReplyOf(req, r, skip) else [];
      && (DueFor(r).Some? ==>
            |given| <= |DueFor(r).value| && (|given| == |DueFor(r).value| ==> given == DueFor(r).value))
      && (DueFor(r) == Some(given) <==> !(skip && Query(r) && !AsksForNothing(r.content)))
  {
    if Query(r) {
      AnsweredExactly(ParsePairs(r.content).entries);
      ReplyMeasured(ParsePairs(r.content).entries);
      assert ParsePairs([]) == Parsed([], Between);
      hide GetValuesResult, ParsePairs, ReplySize, Answerable;
    }
  }

  /** The replies are those due exactly when no query is read while skipping; otherwise one falls short. */
  lemma {:induction false} RepliesAreExact(kind: byte, req: Begin, rs: seq<Record>, skip: bool)
    requires AllAcceptable(kind, req, rs, skip)
    ensures Due(rs) == Some(Replies(kind, req, rs, skip)) <==> !Misanswers(req, rs, skip)
    ensures Due(rs).Some? ==> |Replies(kind, req, rs, skip)| <= |Due(rs).value|
  {
    hide Misanswers, ReplyOf, DueFor, Query, AsksForNothing, Foreign, Management;
    if rs == [] {
      NothingAsked(req, skip);
    } else {
      MisanswersStep(req, rs, skip);
      OneReply(kind, req, rs[0], skip);
      RepliesAreExact(kind, req, rs[1..], SkipAfter(req, rs[0], skip));
      if DueFor(rs[0]).Some? && Due(rs[1..]).Some? {
        var given := if Foreign(req, rs[0]) || Management(rs[0], skip) then ReplyOf(req, rs[0], skip) else [];
        SameHalves(given, Replies(kind, req, rs[1..], SkipAfter(req, rs[0], skip)), DueFor(rs[0]).value,
                   Due(rs[1..]).value);
      }
    }
  }

  lemma NothingAsked(req: Begin, skip: bool)
    ensures !Misanswers(req, [], skip)
  {
  }

  lemma SameHalves(a: seq<byte>, b: seq<byte>, c: seq<byte>, d: seq<byte>)
    requires |a| <= |c| && |b| <= |d|
    ensures a + b == c + d <==> a == c && b == d
  {
    if a + b == c + d {
      assert a == (a + b)[..|a|] && b == (a + b)[|a|..] && c == (c + d)[..|c|] && d == (c + d)[|c|..];
    }
  }

  /** The main result about reading: the stream ends where its records end. What the client gets is exactly the
    * contents of its records if and only if none of them is read while skipping and no management record of unknown
    * type with content is read while not; unless both happen. The replies are those due if and only if no query is
    * read while skipping. Nothing depends on how the bytes were cut into reads.
    */
  lemma ReaderDelivers(env: Env, req: Begin, rs: seq<Record>, out: seq<byte>, end: Record, tail: seq<byte>)
    requires AllAcceptable(env.kind, req, rs, false) && ValidRecords(rs) && Ending(env.kind, req, end)
    requires Accepts(env.limit, out, |Replies(env.kind, req, rs, false)|)
    ensures var p := Run(env, NO_FRAME, req, out, EncodeAll(rs) + Encode(end) + tail);
      var swallows, leaks := Swallows(env.kind, req, rs, false), Leaks(req, rs, false);
      var replies := Replies(env.kind, req, rs, false);
      && p.end == Eof && p.rest == end.padding + tail && p.req == req && p.out == out + replies
      && p.bytes == Delivered(env.kind, req, rs, false)
      && (!(swallows && leaks) ==> (p.bytes == Contents(env.kind, req, rs) <==> !swallows && !leaks))
      && (Due(rs) == Some(replies) <==> !Misanswers(req, rs, false))
  {
    EndApart(EncodeAll(rs), end, tail);
    ReadStream(env, req, rs, false, out, end, end.padding + tail);
    hide Run;
    DeliveryIsExact(env.kind, req, rs, false);
    RepliesAreExact(env.kind, req, rs, false);
  }

  /** The padding of a record that ends a stream, or begins a request, is not skipped when the
    * stream goes on with another type: unless its first byte happens to be a version number,
    * the next read fails.
    */
  lemma PaddingIsReadAsHeader(env: Env, req: Begin, out: seq<byte>, padding: seq<byte>, tail: seq<byte>)
    requires padding != [] && padding[0] != VERSION_1 && HEADER_LEN <= |padding + tail|
    ensures Run(env, NO_FRAME, req, out, padding + tail) == Failed([], UNSUPPORTED_VERSION, out)
  {
    var wire := padding + tail;
    assert wire == wire[..HEADER_LEN] + wire[HEADER_LEN..];
    BoundaryDispatches(env, false, req, out, wire[..HEADER_LEN], wire[HEADER_LEN..]);
    RunAtBoundary(env, NO_FRAME, req, out, wire);
  }

  /** The acceptable records are all there are: any other record, unless it ends the stream or begins the request,
    * makes the stream fail.
    */
  lemma OtherRecordsFail(env: Env, skip: bool, req: Begin, out: seq<byte>, r: Record, rest: seq<byte>)
    requires ValidRecord(r) && (Query(r) ==> rest != [])
    requires !Acceptable(env.kind, req, r, skip) && !Ending(env.kind, req, r) && !BeginsRequest(req, r)
    ensures var p := Run(env, Frame(0, 0, skip), req, out, Encode(r) + rest);
      p.bytes == [] && p.end.Fault? && p.out == out
  {
    AtHeader(env, skip, req, out, r, rest);
    if Query(r) {
      TailOfRecord(env, skip, req, out, r, rest);
      ManageValues(env, Frame(|r.content|, |r.padding|, skip), req, out, r.content + r.padding + rest);
      AnsweredExactly(ParsePairs(r.content).entries);
      hide Tail, Manage, GetValuesResult, ParsePairs;
    }
  }

  /** Which records are acceptable, without following the reader: it depends on the records before. */
  lemma {:induction false} AcceptableThroughout(kind: byte, req: Begin, rs: seq<Record>, skip: bool)
    ensures AllAcceptable(kind, req, rs, skip) <==>
      forall j :: 0 <= j < |rs| ==> Acceptable(kind, req, rs[j], Skipping(req, rs, skip, j))
  {
    hide Skipping, SkipAfter, Acceptable;
    SkippingStart(req, rs, skip);
    if rs != [] {
      var rest, after := rs[1..], SkipAfter(req, rs[0], skip);
      AcceptableThroughout(kind, req, rest, after);
      forall j | 0 < j < |rs|
        ensures Skipping(req, rs, skip, j) <==> Skipping(req, rest, after, j - 1)
      {
        SkippingStep(req, rs, skip, j);
      }
      assert forall j :: 0 < j < |rs| ==> rs[j] == rest[j - 1];
      assert forall j :: 0 <= j < |rest| ==> rest[j] == rs[j + 1];
    }
  }

  /** The smallest query that goes unanswered: behind an empty record of another request it is taken for one that asks
    * for nothing, even if the library could not have answered it.
    */
  lemma SkippedQueryUnanswered(env: Env, req: Begin, out: seq<byte>, empty: Record, query: Record, rest: seq<byte>)
    requires ValidRecord(empty) && Foreign(req, empty) && empty.kind != BEGIN_REQUEST && empty.content == []
    requires ValidRecord(query) && Query(query) && !AsksForNothing(query.content) && rest != []
    requires Accepts(env.limit, out, HEADER_LEN)
    ensures var rs := [empty, query];
      && AllAcceptable(env.kind, req, rs, false) && !Swallows(env.kind, req, rs, false) && !Leaks(req, rs, false)
      && GetValuesResult([]).Some? && Replies(env.kind, req, rs, false) == GetValuesResult([]).value
      && Due(rs) != Some(Replies(env.kind, req, rs, false))
      && Run(env, NO_FRAME, req, out, EncodeAll(rs) + rest)
         == Run(env, NO_FRAME, req, out + GetValuesResult([]).value, rest)
  {
    var rs := [empty, query];
    assert rs[1..] == [query] && [query][1..] == [];
    EmptyQuery(query.content);
    hide ParsePairs, GetValuesResult, AsksForNothing, Run, Encode;
    assert SkipAfter(req, empty, false) && !SkipAfter(req, query, true);
    assert AllAcceptable(env.kind, req, [query], true);
    assert Replies(env.kind, req, [query], true) == ReplyOf(req, query, true) + Replies(env.kind, req, [], false);
    assert Replies(env.kind, req, rs, false) == [] + Replies(env.kind, req, [query], true);
    assert Delivered(env.kind, req, [query], true) == [] + Delivered(env.kind, req, [], false) == [];
    ReadRecords(env, req, rs, false, out, rest);
    assert SkipAtEnd(req, rs, false) == SkipAtEnd(req, [query], true) == SkipAtEnd(req, [], false);
    assert Delivered(env.kind, req, rs, false) == [] + Delivered(env.kind, req, [query], true) == [];
    PrependNothing(Run(env, NO_FRAME, req, out + GetValuesResult([]).value, rest));
    assert SkippingSince(req, rs, 0, 1) && IsQuery(rs, 1);
    RepliesAreExact(env.kind, req, rs, false);
  }

  lemma PrependNothing(p: Pending)
    ensures Prepend([], p) == p
  {
    assert [] + p.bytes == p.bytes;
  }

  lemma EmptyQuery(content: seq<byte>)
    ensures !AsksForNothing(content) ==> content != []
    ensures ParsePairs([]) == Parsed([], Between) && GetValuesResult([]).Some? &&
        |GetValuesResult([]).value| == HEADER_LEN
  {
    AnsweredExactly([]);
    assert ReplySize([]) == 0;
  }

  /** The smallest loss: an empty record of another request, then one of the stream. */
  lemma EmptyForeignRecordSwallowsNext(kind: byte, req: Begin, empty: Record, own: Record)
    requires Foreign(req, empty) && empty.content == []
    requires Own(kind, req, own) && own.content != []
    ensures Delivered(kind, req, [empty, own], false) == []
    ensures Contents(kind, req, [empty, own]) == own.content != []
  {
    assert [empty, own][1..] == [own] && [own][1..] == [];
    assert Delivered(kind, req, [own], true) == DeliveredOf(kind, req, own, true) + Delivered(kind, req, [], false);
    assert Contents(kind, req, [own]) == own.content + [];
  }

  /** The smallest leak: a management record of unknown type with content reaches the client. */
  lemma UnknownRecordLeaks(env: Env, req: Begin, out: seq<byte>, r: Record, rest: seq<byte>)
    requires ValidRecord(r) && Unknown(r) && r.content != [] &&
        Accepts(env.limit, out, |Encode(UnknownTypeRecord(r.kind))|)
    ensures Delivered(env.kind, req, [r], false) == r.content != Contents(env.kind, req, [r])
    ensures Run(env, NO_FRAME, req, out, Encode(r) + rest)
            == Prepend(r.content, Run(env, NO_FRAME, req, out + Encode(UnknownTypeRecord(r.kind)), rest))
  {
    hide Run;
    ReadUnknown(env, false, req, out, r, rest);
    assert [r][1..] == [];
    assert Delivered(env.kind, req, [r], false) == r.content + Delivered(env.kind, req, [], false);
    assert Contents(env.kind, req, [r]) == [] + Contents(env.kind, req, []);
  }

  /** The reader is left skipping exactly when a skipped, empty record has no record with content after it. */
  lemma {:induction false} SkipAtEndIsExact(req: Begin, rs: seq<Record>, skip: bool)
    ensures SkipAtEnd(req, rs, skip) <==> Skipping(req, rs, skip, |rs|)
  {
    hide Skipping, SkipAfter;
    if rs == [] {
      SkippingStart(req, rs, skip);
    } else {
      SkippingStep(req, rs, skip, |rs|);
      SkipAtEndIsExact(req, rs[1..], SkipAfter(req, rs[0], skip));
    }
  }

  function Announced(r: Record): Begin
    requires |r.content| == 8
  {
    Begin(r.id, r.content[0] as int * 0x100 + r.content[1] as int, r.content[2] % 2 == 1, true)
  }

  /** A BEGIN_REQUEST record is accepted, with the request it announces, unless the reader is
    * still set to skip. Its padding is left where it is.
    */
  lemma ReadBegin(env: Env, skip: bool, req: Begin, out: seq<byte>, r: Record, tail: seq<byte>)
    requires ValidRecord(r) && BeginsRequest(req, r)
    ensures var p := Run(env, Frame(0, 0, skip), req, out, Head(r) + (r.content + tail));
      && (!skip ==> p == Pending([], Begun, tail, out, Announced(r), Frame(0, |r.padding|, false)))
      && (skip ==> p.bytes == [] && p.end.Fault?)
  {
    AtHead(env, skip, req, out, r, r.content + tail);
    var body := r.content + tail;
    assert body[..8] == r.content && body[8..] == tail;
    assert body[0] == r.content[0] && body[1] == r.content[1] && body[2] == r.content[2];
  }
}
