/** What any bytes at all on a connection come to: the acceptable records they begin with, and then a place where the
  * reader stops.
  */
module AnyBytes {
  import opened Basics
  import opened FcgiProtocol
  import opened FcgiConnection
  import opened NameValue
  import opened ReaderSpec
  import opened ReaderTheorems
  import opened CutStreams
  import opened RequestReading
  import opened CutRequests

  /** The acceptable records that `wire` begins with, for a reader that begins with `skip`. */
  function Spelled(kind: byte, req: Begin, skip: bool, wire: seq<byte>): seq<Record>
    decreases |wire|
  {
    match FirstSize(wire)
    case None => []
    case Some(n) =>
      var r := First(wire);
      if Acceptable(kind, req, r, skip) then [r] + Spelled(kind, req, SkipAfter(req, r, skip), wire[n..]) else []
  }

  /** No acceptable record is there as a whole. */
  predicate Stuck(kind: byte, req: Begin, skip: bool, wire: seq<byte>) {
    FirstSize(wire).Some? ==> !Acceptable(kind, req, First(wire), skip)
  }

  /** Any bytes are acceptable records, and something that does not begin with another. */
  lemma {:induction false} SpelledApart(kind: byte, req: Begin, skip: bool, wire: seq<byte>) returns (left: seq<byte>)
    ensures var rs := Spelled(kind, req, skip, wire);
      && ValidRecords(rs) && AllAcceptable(kind, req, rs, skip) && wire == EncodeAll(rs) + left
      && Stuck(kind, req, SkipAtEnd(req, rs, skip), left)
    decreases |wire|
  {
    hide Acceptable, SkipAfter, First;
    var rs := Spelled(kind, req, skip, wire);
    if rs == [] {
      left := wire;
      assert EncodeAll([]) + left == left;
    } else {
      var n, r := FirstSize(wire).value, First(wire);
      EncodeFirst(wire);
      left := SpelledApart(kind, req, SkipAfter(req, r, skip), wire[n..]);
      assert rs[1..] == Spelled(kind, req, SkipAfter(req, r, skip), wire[n..]);
      Associate(Encode(r), EncodeAll(rs[1..]), left);
      assert wire == wire[..n] + wire[n..];
    }
  }

  /** And there is no other way to see them so. */
  lemma {:induction false} SpelledOnce(kind: byte, req: Begin, skip: bool, rs: seq<Record>, left: seq<byte>)
    requires ValidRecords(rs) && AllAcceptable(kind, req, rs, skip) && Stuck(kind, req, SkipAtEnd(req, rs, skip), left)
    ensures Spelled(kind, req, skip, EncodeAll(rs) + left) == rs
    decreases |rs|
  {
    hide Acceptable, SkipAfter, First, FirstSize, Encode;
    if rs == [] {
      assert EncodeAll(rs) + left == left;
    } else {
      var r, rest := rs[0], EncodeAll(rs[1..]) + left;
      assert EncodeAll(rs) + left == Encode(r) + rest;
      FirstOfEncoded(r, rest);
      SpelledOnce(kind, req, SkipAfter(req, r, skip), rs[1..], left);
      assert rs == [r] + rs[1..];
    }
  }

  /** What stops the reader is the header of a record that ends the stream. */
  predicate HeadEnds(kind: byte, req: Begin, left: seq<byte>) {
    && |left| >= HEADER_LEN && left[0] == VERSION_1
    && var h := left[..HEADER_LEN];
    h[1] == kind && HeaderId(h) == req.id && HeaderId(h) != NULL_REQUEST_ID && kind != BEGIN_REQUEST &&
        HeaderContentLength(h) == 0
  }

  /** What stops the reader is a record that begins a request. */
  predicate HeadBegins(req: Begin, skip: bool, left: seq<byte>) {
    && |left| >= HEADER_LEN + 8 && left[0] == VERSION_1
    && var h := left[..HEADER_LEN];
    h[1] == BEGIN_REQUEST && HeaderId(h) != NULL_REQUEST_ID && HeaderContentLength(h) == 8 && !req.begun && !skip
  }

  /** What is delivered of a record that has not arrived as a whole. */
  function Partly(kind: byte, req: Begin, skip: bool, left: seq<byte>): seq<byte> {
    if |left| < HEADER_LEN || left[0] != VERSION_1 || skip then []
    else
      var h := left[..HEADER_LEN];
      var own := h[1] == kind && HeaderId(h) == req.id && h[1] != BEGIN_REQUEST && HeaderId(h) != NULL_REQUEST_ID;
      var unknown := HeaderId(h) == NULL_REQUEST_ID && h[1] != BEGIN_REQUEST && h[1] != GET_VALUES;
      if own || unknown then left[HEADER_LEN..][..Min(|left| - HEADER_LEN, HeaderContentLength(h))] else []
  }

  /** A query that is not acceptable as a whole. */
  lemma StuckQuery(env: Env, f: Frame, req: Begin, out: seq<byte>, body: seq<byte>)
    requires f.content + f.padding <= |body| ==> !f.skip && !AnswerableContent(body[..f.content])
    ensures var m := Manage(env, GET_VALUES, f, req, out, body); m.bytes == [] && m.end.Fault?
  {
    var t := Tail(env, f, req, out, body);
    ManageValues(env, f, req, out, body);
    if f.content + f.padding <= |body| {
      assert t.end.Eof? ==> t.bytes == body[..f.content];
    }
    AnsweredExactly(ParsePairs(t.bytes).entries);
    hide Tail, Manage, ParsePairs, GetValuesResult;
  }

  /** Where the reader stops: at the end of the stream, at the beginning of a request, or with an error. */
  lemma StuckIsRead(env: Env, skip: bool, req: Begin, out: seq<byte>, left: seq<byte>)
    requires Stuck(env.kind, req, skip, left) && env.limit == None
    ensures var p := Run(env, Frame(0, 0, skip), req, out, left);
      && (HeadEnds(env.kind, req, left) ==>
          p.bytes == [] && p.end == Eof && p.rest == left[HEADER_LEN..] && p.out == out)
      && (HeadBegins(req, skip, left) ==>
          p.bytes == [] && p.end == Begun && p.rest == left[HEADER_LEN + 8..] && p.out == out)
      && (!HeadEnds(env.kind, req, left) && !HeadBegins(req, skip, left) ==>
            p.end.Fault? && p.bytes == Partly(env.kind, req, skip, left))
  {
    if |left| < HEADER_LEN {
      TooShort(env, skip, req, out, left);
    } else {
      var h, body := left[..HEADER_LEN], left[HEADER_LEN..];
      assert left == h + body && h[0] == left[0] && h[6] == left[6];
      BoundaryDispatches(env, skip, req, out, h, body);
      RunAtBoundary(env, Frame(0, 0, skip), req, out, left);
      if left[0] == VERSION_1 {
        HeadStuck(env, skip, req, out, h, body);
      }
    }
  }

  lemma HeadStuck(env: Env, skip: bool, req: Begin, out: seq<byte>, h: seq<byte>, body: seq<byte>)
    requires |h| == HEADER_LEN && h[0] == VERSION_1 && Stuck(env.kind, req, skip, h + body) && env.limit == None
    ensures var p, left := Dispatch(env, h, skip, req, out, body), h + body;
      && (HeadEnds(env.kind, req, left) ==> p.bytes == [] && p.end == Eof && p.rest == body && p.out == out)
      && (HeadBegins(req, skip, left) ==> p.bytes == [] && p.end == Begun && p.rest == body[8..] && p.out == out)
      && (!HeadEnds(env.kind, req, left) && !HeadBegins(req, skip, left) ==>
            p.end.Fault? && p.bytes == Partly(env.kind, req, skip, left))
  {
    var left := h + body;
    var f, id := FrameOf(h, skip), HeaderId(h);
    assert left[..HEADER_LEN] == h && left[HEADER_LEN..] == body && left[6] == h[6];
    if f.content + f.padding <= |body| {
      assert First(left).content == body[..f.content] && First(left).id == id && First(left).kind == h[1];
      EncodeFirst(left);
      if id == NULL_REQUEST_ID && h[1] == GET_VALUES {
        StuckQuery(env, f, req, out, body);
      }
    } else if !HeadEnds(env.kind, req, left) && !HeadBegins(req, skip, left) {
      PartIsRead(env, skip, req, out, h, body);
    }
    hide Run, Manage;
  }

  /** A whole header, and less than it announces. */
  lemma PartIsRead(env: Env, skip: bool, req: Begin, out: seq<byte>, h: seq<byte>, body: seq<byte>)
    requires |h| == HEADER_LEN && h[0] == VERSION_1 && env.limit == None
    requires |body| < FrameOf(h, skip).content + FrameOf(h, skip).padding
    requires !HeadEnds(env.kind, req, h + body) && !HeadBegins(req, skip, h + body)
    ensures var p := Dispatch(env, h, skip, req, out, body);
      p.end.Fault? && p.bytes == Partly(env.kind, req, skip, h + body)
  {
    var left, f, id := h + body, FrameOf(h, skip), HeaderId(h);
    assert left[..HEADER_LEN] == h && left[HEADER_LEN..] == body;
    if h[1] == BEGIN_REQUEST {
      RunCut(env, f.(skip := true), req, out + CantMultiplex(id), body);
    } else if id == NULL_REQUEST_ID && h[1] == GET_VALUES {
      StuckQuery(env, f, req, out, body);
    } else if id == NULL_REQUEST_ID {
      ManageOther(env, h[1], f, req, out, body);
      RunCut(env, f, req, out + Encode(UnknownTypeRecord(h[1])), body);
    } else {
      RunCut(env, f, req, out, body);
      RunCut(env, f.(skip := true), req, out, body);
    }
    hide Run, Manage;
  }

  /** Any bytes at all, on a connection that takes the replies: the acceptable records they begin with are read, and
    * then the stream ends, the request begins, or it fails, by what stops the reader there.
    */
  lemma AnyBytesAreRead(env: Env, req: Begin, out: seq<byte>, wire: seq<byte>) returns (left: seq<byte>)
    requires env.limit == None
    ensures var rs := Spelled(env.kind, req, false, wire);
      && ValidRecords(rs) && AllAcceptable(env.kind, req, rs, false) && wire == EncodeAll(rs) + left
      && var skip, p := SkipAtEnd(req, rs, false), Run(env, NO_FRAME, req, out, wire);
         && (p.end == Eof <==> HeadEnds(env.kind, req, left))
         && (p.end == Begun <==> HeadBegins(req, skip, left))
         && (p.end == Eof ==> p.rest == left[HEADER_LEN..])
         && (p.end == Begun ==> p.rest == left[HEADER_LEN + 8..])
         && (!p.end.Fault? ==>
               p.out == out + Replies(env.kind, req, rs, false) && p.bytes == Delivered(env.kind, req, rs, false))
         && (p.end.Fault? ==> p.bytes == Delivered(env.kind, req, rs, false) + Partly(env.kind, req, skip, left))
  {
    left := SpelledApart(env.kind, req, false, wire);
    var rs := Spelled(env.kind, req, false, wire);
    hide Spelled, Stuck, HeadEnds, HeadBegins, Partly, Run, EncodeAll, AllAcceptable, Delivered, DeliveredBy, Replies;
    var given := Delivered(env.kind, req, rs, false);
    if left == [] {
      assert EncodeAll(rs)[..|EncodeAll(rs)|] == EncodeAll(rs) == wire;
      ReadCutRecords(env, req, rs, false, out, |EncodeAll(rs)|);
      DeliveredByAll(env.kind, req, rs, false, |EncodeAll(rs)|);
      NothingStuck(env.kind, req, SkipAtEnd(req, rs, false));
    } else {
      ReadRecords(env, req, rs, false, out, left);
      StuckIsRead(env, SkipAtEnd(req, rs, false), req, out + Replies(env.kind, req, rs, false), left);
      NotBoth(env.kind, req, SkipAtEnd(req, rs, false), left);
    }
    assert given + [] == given;
  }

  lemma NothingStuck(kind: byte, req: Begin, skip: bool)
    ensures !HeadEnds(kind, req, []) && !HeadBegins(req, skip, []) && Partly(kind, req, skip, []) == []
  {
  }

  lemma NotBoth(kind: byte, req: Begin, skip: bool, left: seq<byte>)
    ensures !(HeadEnds(kind, req, left) && HeadBegins(req, skip, left))
  {
  }

  /** So any bytes behind a BEGIN_REQUEST record, padding or not, are parameters that are whole or broken off; padding
    * is read together with what follows it, as the records they spell.
    */
  lemma AnyEnvironment(env: Env, entries: seq<seq<byte>>, req: Begin, out: seq<byte>, wire: seq<byte>)
    returns (left: seq<byte>)
    requires env.limit == None && req.begun
    ensures var rs := Spelled(PARAMS, req, false, wire);
      && ValidRecords(rs) && AllAcceptable(PARAMS, req, rs, false) && wire == EncodeAll(rs) + left
      && var given, partly := Delivered(PARAMS, req, rs, false), Partly(PARAMS, req, SkipAtEnd(req, rs, false), left);
         EnvironmentRead(env, entries, req, out, wire) ==
           if HeadEnds(PARAMS, req, left) then
             Whole(entries, ParsePairs(given), req, left[HEADER_LEN..], out + Replies(PARAMS, req, rs, false))
           else Broken(entries, ParsePairs(given + partly))
  {
    left := AnyBytesAreRead(env.(kind := PARAMS), req, out, wire);
    RunStaysBegun(env.(kind := PARAMS), NO_FRAME, req, out, wire);
    hide Run, ParsePairs, Spelled, EncodeAll, AllAcceptable, Delivered, Replies, HeadEnds, HeadBegins, Partly;
  }
}
