/** What a connection that ends early makes of a stream of records: the client is given what has arrived of it, and
  * then the error of the read.
  */
module CutStreams {
  import opened Basics
  import opened FcgiProtocol
  import opened FcgiConnection
  import opened NameValue
  import opened ReaderSpec
  import opened ReaderTheorems

  /** What the client is given of a record of which `n` bytes arrive. */
  function DeliveredOfCut(kind: byte, req: Begin, r: Record, skip: bool, n: nat): seq<byte> {
    if (Own(kind, req, r) || Unknown(r)) && !skip && HEADER_LEN < n then
      r.content[..Min(n - HEADER_LEN, |r.content|)]
    else []
  }

  /** What the client is given of records of which `n` bytes arrive. */
  function DeliveredBy(kind: byte, req: Begin, rs: seq<Record>, skip: bool, n: nat): seq<byte>
    requires ValidRecords(rs)
  {
    if rs == [] then []
    else if n <= |Encode(rs[0])| then DeliveredOfCut(kind, req, rs[0], skip, n)
    else
      DeliveredOf(kind, req, rs[0], skip)
      + DeliveredBy(kind, req, rs[1..], SkipAfter(req, rs[0], skip), n - |Encode(rs[0])|)
  }

  // ------------------------------------------------------------ a record that is cut

  /** Part of the content and padding of a record. */
  lemma RunCut(env: Env, f: Frame, req: Begin, out: seq<byte>, body: seq<byte>)
    requires |body| <= f.content + f.padding
    ensures Run(env, f, req, out, body)
            == Failed(if f.skip then [] else body[..Min(|body|, f.content)], env.readFault, out)
  {
    if body != [] && 0 < f.content && !f.skip {
      var n := Min(|body|, f.content);
      var g := f.(content := f.content - n);
      if body[n..] == [] {
        assert Run(env, g, req, out, body[n..]) == Failed([], env.readFault, out);
      } else {
        RunAtBoundary(env, g, req, out, body[n..]);
      }
      assert body[..n] + [] == body[..n];
    }
  }

  /** The same for a client that must not see past the end of the record. */
  lemma TailCut(env: Env, f: Frame, req: Begin, out: seq<byte>, body: seq<byte>)
    requires |body| <= f.content + f.padding
    ensures var t := Tail(env, f, req, out, body);
      && t.bytes == (if f.skip then [] else body[..Min(|body|, f.content)])
      && (t.end.Fault? || (t.end.Eof? && t.rest == [] && |body| == f.content + f.padding))
  {
    if body != [] && 0 < f.content && !f.skip && f.content < |body| {
      assert body[..f.content] + [] == body[..f.content];
    }
  }

  lemma QueryCut(env: Env, skip: bool, req: Begin, out: seq<byte>, r: Record, body: seq<byte>)
    requires Query(r) && Management(r, skip) && body <= r.content + r.padding
    requires Accepts(env.limit, out, |ReplyOf(req, r, skip)|)
    ensures var p := Manage(env, GET_VALUES, Frame(|r.content|, |r.padding|, skip), req, out, body);
      && p.bytes == [] && p.end == Fault(env.readFault)
      && (p.out == out || p.out == out + ReplyOf(req, r, skip))
  {
    var f := Frame(|r.content|, |r.padding|, skip);
    ManageValues(env, f, req, out, body);
    TailCut(env, f, req, out, body);
    var n := Min(|body|, |r.content|);
    assert body[..n] == r.content[..n];
    if skip {
      assert ParsePairs([]) == Parsed([], Between);
    } else {
      CutNeverOverflows(r.content, n);
    }
    GetValuesAnswered(r, skip);
    var t := Tail(env, f, req, out, body);
    hide Tail, Manage, ParsePairs, GetValuesResult;
    if t.end.Eof? {
      assert n == |r.content| && r.content[..n] == r.content;
      assert Run(env, t.frame, req, out + ReplyOf(req, r, skip), [])
          == Failed([], env.readFault, out + ReplyOf(req, r, skip));
    }
  }

  /** A whole header, and some of what it announces. */
  lemma ReadCutBody(env: Env, skip: bool, req: Begin, out: seq<byte>, r: Record, body: seq<byte>)
    requires Acceptable(env.kind, req, r, skip) && |body| <= |r.content| + |r.padding| && body <= r.content + r.padding
    requires Foreign(req, r) || Management(r, skip) ==> Accepts(env.limit, out, |ReplyOf(req, r, skip)|)
    ensures var p := Dispatch(env, Head(r), skip, req, out, body);
      && p.bytes == (if (Own(env.kind, req, r) || Unknown(r)) && !skip then body[..Min(|body|, |r.content|)] else [])
      && p.end == Fault(env.readFault)
      && (p.out == out || ((Foreign(req, r) || Management(r, skip)) && p.out == out + ReplyOf(req, r, skip)))
  {
    AtHead(env, skip, req, out, r, body);
    var f := Frame(|r.content|, |r.padding|, skip);
    if Own(env.kind, req, r) {
      RunCut(env, f, req, out, body);
    } else if Foreign(req, r) {
      RunCut(env, f.(skip := true), req, out + ReplyOf(req, r, skip), body);
      assert out + [] == out;
    } else if Query(r) {
      QueryCut(env, skip, req, out, r, body);
    } else {
      RunCut(env, f, req, out + ReplyOf(req, r, skip), body);
      ManageOther(env, r.kind, f, req, out, body);
    }
    hide Run, Manage;
  }

  /** An acceptable record of which only the first bytes arrive, or all and nothing after them. */
  lemma ReadCut(env: Env, skip: bool, req: Begin, out: seq<byte>, r: Record, n: nat)
    requires Acceptable(env.kind, req, r, skip) && n <= |Encode(r)|
    requires Foreign(req, r) || Management(r, skip) ==> Accepts(env.limit, out, |ReplyOf(req, r, skip)|)
    ensures var p := Run(env, Frame(0, 0, skip), req, out, Encode(r)[..n]);
      && p.bytes == DeliveredOfCut(env.kind, req, r, skip, n) && p.end == Fault(env.readFault)
      && (p.out == out || ((Foreign(req, r) || Management(r, skip)) && p.out == out + ReplyOf(req, r, skip)))
  {
    hide Run, Dispatch, ReplyOf, Own, Foreign, Unknown, Management;
    if n < HEADER_LEN {
      TooShort(env, skip, req, out, Encode(r)[..n]);
    } else {
      var body := (r.content + r.padding)[..n - HEADER_LEN];
      assert Encode(r)[..n] == Head(r) + body;
      AtHead(env, skip, req, out, r, body);
      ReadCutBody(env, skip, req, out, r, body);
      assert body[..Min(|body|, |r.content|)] == r.content[..Min(n - HEADER_LEN, |r.content|)];
    }
  }

  /** Fewer bytes than a header has. */
  lemma TooShort(env: Env, skip: bool, req: Begin, out: seq<byte>, bytes: seq<byte>)
    requires |bytes| < HEADER_LEN
    ensures Run(env, Frame(0, 0, skip), req, out, bytes) == Failed([], env.readFault, out)
  {
    RunAtBoundary(env, Frame(0, 0, skip), req, out, bytes);
  }

  // ------------------------------------------------------------ records that are cut

  lemma CutFirst(rs: seq<Record>, n: nat)
    requires rs != [] && ValidRecords(rs) && n <= |EncodeAll(rs)|
    ensures var first := Encode(rs[0]);
      if n <= |first| then EncodeAll(rs)[..n] == first[..n]
      else n - |first| <= |EncodeAll(rs[1..])| && EncodeAll(rs)[..n] == first + EncodeAll(rs[1..])[..n - |first|]
  {
    hide Encode;
  }

  lemma Within(out: seq<byte>, reply: seq<byte>, replies: seq<byte>, got: seq<byte>)
    requires got == out || got == out + reply || out + reply <= got <= out + reply + replies
    ensures out <= got <= out + (reply + replies)
  {
    Associate(out, reply, replies);
  }

  /** Records of which `n` bytes arrive. */
  lemma {:induction false} ReadCutRecords(env: Env, req: Begin, rs: seq<Record>, skip: bool, out: seq<byte>, n: nat)
    requires AllAcceptable(env.kind, req, rs, skip) && ValidRecords(rs) && n <= |EncodeAll(rs)|
    requires Accepts(env.limit, out, |Replies(env.kind, req, rs, skip)|)
    ensures var p := Run(env, Frame(0, 0, skip), req, out, EncodeAll(rs)[..n]);
      && p.bytes == DeliveredBy(env.kind, req, rs, skip, n) && p.end == Fault(env.readFault)
      && out <= p.out <= out + Replies(env.kind, req, rs, skip)
  {
    if rs == [] {
      assert EncodeAll(rs)[..n] == [];
    } else {
      hide Run, Encode, ReplyOf, Acceptable, DeliveredOf, DeliveredOfCut;
      var r := rs[0];
      var after := SkipAfter(req, r, skip);
      var reply := if Foreign(req, r) || Management(r, skip) then ReplyOf(req, r, skip) else [];
      CutFirst(rs, n);
      var replies := Replies(env.kind, req, rs[1..], after);
      var p := Run(env, Frame(0, 0, skip), req, out, EncodeAll(rs)[..n]);
      assert Replies(env.kind, req, rs, skip) == reply + replies;
      hide Replies, AllAcceptable, EncodeAll, Foreign, Management;
      if n <= |Encode(r)| {
        ReadCut(env, skip, req, out, r, n);
        Within(out, reply, replies, if p.out == out then out else out + reply);
      } else {
        var more := EncodeAll(rs[1..])[..n - |Encode(r)|];
        ReadRecord(env, skip, req, out, r, more);
        ReadCutRecords(env, req, rs[1..], after, out + reply, n - |Encode(r)|);
        Within(out, reply, replies, p.out);
      }
    }
  }

  /** What arrives early is the beginning of what arrives later. */
  lemma {:induction false} DeliveredByGrows(kind: byte, req: Begin, rs: seq<Record>, skip: bool, n: nat, m: nat)
    requires ValidRecords(rs) && n <= m
    ensures DeliveredBy(kind, req, rs, skip, n) <= DeliveredBy(kind, req, rs, skip, m)
  {
    hide Encode, DeliveredOf, DeliveredOfCut, SkipAfter;
    if rs != [] {
      var size := |Encode(rs[0])|;
      if n > size {
        DeliveredByGrows(kind, req, rs[1..], SkipAfter(req, rs[0], skip), n - size, m - size);
      } else {
        CutGrows(kind, req, rs[0], skip, n, m);
      }
    }
  }

  lemma CutGrows(kind: byte, req: Begin, r: Record, skip: bool, n: nat, m: nat)
    requires n <= m
    ensures DeliveredOfCut(kind, req, r, skip, n) <= DeliveredOfCut(kind, req, r, skip, m)
    ensures DeliveredOfCut(kind, req, r, skip, m) <= DeliveredOf(kind, req, r, skip)
  {
  }

  /** All of it is what the records deliver. */
  lemma {:induction false} DeliveredByAll(kind: byte, req: Begin, rs: seq<Record>, skip: bool, n: nat)
    requires ValidRecords(rs) && |EncodeAll(rs)| <= n
    ensures DeliveredBy(kind, req, rs, skip, n) == Delivered(kind, req, rs, skip)
  {
    if rs != [] {
      DeliveredByAll(kind, req, rs[1..], SkipAfter(req, rs[0], skip), n - |Encode(rs[0])|);
      if n <= |Encode(rs[0])| {
        assert EncodeAll(rs[1..]) == [];
        DeliveredByAll(kind, req, rs[1..], SkipAfter(req, rs[0], skip), 0);
        NothingLeft(kind, req, rs[1..], SkipAfter(req, rs[0], skip));
      }
    }
  }

  lemma NothingLeft(kind: byte, req: Begin, rs: seq<Record>, skip: bool)
    requires ValidRecords(rs) && EncodeAll(rs) == []
    ensures Delivered(kind, req, rs, skip) == []
  {
  }

  /** A stream whose connection ends before the header of its last record has arrived: the client is given the
    * beginning of what it would have been given, and an error instead of the end.
    */
  lemma StreamCutShort(env: Env, req: Begin, rs: seq<Record>, out: seq<byte>, end: Record, n: nat)
    requires AllAcceptable(env.kind, req, rs, false) && ValidRecords(rs) && Ending(env.kind, req, end)
    requires n < |EncodeAll(rs)| + HEADER_LEN
    requires Accepts(env.limit, out, |Replies(env.kind, req, rs, false)|)
    ensures n <= |EncodeAll(rs) + Encode(end)|
    ensures var p := Run(env, NO_FRAME, req, out, (EncodeAll(rs) + Encode(end))[..n]);
      && p.bytes == DeliveredBy(env.kind, req, rs, false, n) && p.end == Fault(env.readFault)
      && out <= p.out <= out + Replies(env.kind, req, rs, false)
      && p.bytes <= Delivered(env.kind, req, rs, false)
  {
    var all := EncodeAll(rs);
    DeliveredByAll(env.kind, req, rs, false, n + |all|);
    DeliveredByGrows(env.kind, req, rs, false, n, n + |all|);
    if n <= |all| {
      assert (all + Encode(end))[..n] == all[..n];
      ReadCutRecords(env, req, rs, false, out, n);
    } else {
      var part := Encode(end)[..n - |all|];
      assert (all + Encode(end))[..n] == all + part;
      ReadRecords(env, req, rs, false, out, part);
      TooShort(env, SkipAtEnd(req, rs, false), req, out + Replies(env.kind, req, rs, false), part);
      DeliveredByAll(env.kind, req, rs, false, n);
      hide Run;
      assert Delivered(env.kind, req, rs, false) + [] == Delivered(env.kind, req, rs, false);
    }
  }

  // ------------------------------------------------------------ replies that are not taken

  /** How many records come before the first whose reply the connection does not take. */
  function Answered(kind: byte, limit: Option<nat>, req: Begin, rs: seq<Record>, skip: bool, out: seq<byte>): (k: nat)
    requires AllAcceptable(kind, req, rs, skip)
    ensures k <= |rs|
  {
    if rs == [] then 0
    else
      var reply := if Foreign(req, rs[0]) || Management(rs[0], skip) then ReplyOf(req, rs[0], skip) else [];
      if !Accepts(limit, out, |reply|) then 0
      else 1 + Answered(kind, limit, req, rs[1..], SkipAfter(req, rs[0], skip), out + reply)
  }

  /** A record whose reply the connection does not take. */
  lemma ReadRefused(env: Env, skip: bool, req: Begin, out: seq<byte>, r: Record, rest: seq<byte>)
    requires Acceptable(env.kind, req, r, skip) && (Foreign(req, r) || Management(r, skip)) && rest != []
    requires !Accepts(env.limit, out, |ReplyOf(req, r, skip)|) && Accepts(env.limit, out, 0)
    ensures var p := Run(env, Frame(0, 0, skip), req, out, Encode(r) + rest);
      p.bytes == [] && p.end == Fault(env.writeFault) && out <= p.out <= out + ReplyOf(req, r, skip)
  {
    AtHeader(env, skip, req, out, r, rest);
    var f, body := Frame(|r.content|, |r.padding|, skip), r.content + r.padding + rest;
    if Query(r) {
      TailOfRecord(env, skip, req, out, r, rest);
      ManageValues(env, f, req, out, body);
      GetValuesAnswered(r, skip);
      hide Tail, Manage, GetValuesResult, ParsePairs;
    } else if Unknown(r) {
      ManageOther(env, r.kind, f, req, out, body);
      hide Manage;
    }
  }

  /** On a connection that stops taking replies, the stream fails at the first reply that is not taken. */
  lemma {:induction false} RepliesRefused(env: Env, req: Begin, rs: seq<Record>, skip: bool, out: seq<byte>,
                                          rest: seq<byte>)
    requires AllAcceptable(env.kind, req, rs, skip) && ValidRecords(rs) && rest != []
    requires !Accepts(env.limit, out, |Replies(env.kind, req, rs, skip)|) && Accepts(env.limit, out, 0)
    ensures var p := Run(env, Frame(0, 0, skip), req, out, EncodeAll(rs) + rest);
      var k := Answered(env.kind, env.limit, req, rs, skip, out);
      && k < |rs| && p.bytes == Delivered(env.kind, req, rs[..k], skip) && p.end == Fault(env.writeFault)
      && out <= p.out <= out + Replies(env.kind, req, rs, skip)
  {
    var r, more := rs[0], EncodeAll(rs[1..]) + rest;
    var after := SkipAfter(req, r, skip);
    var reply := if Foreign(req, r) || Management(r, skip) then ReplyOf(req, r, skip) else [];
    var replies := Replies(env.kind, req, rs[1..], after);
    var k := Answered(env.kind, env.limit, req, rs, skip, out);
    assert EncodeAll(rs) + rest == Encode(r) + more;
    assert Replies(env.kind, req, rs, skip) == reply + replies;
    assert Acceptable(env.kind, req, r, skip) && AllAcceptable(env.kind, req, rs[1..], after);
    hide Run, Encode, EncodeAll, ReplyOf, Acceptable, DeliveredOf, Foreign, Management, Replies;
    var p := Run(env, Frame(0, 0, skip), req, out, Encode(r) + more);
    assert if k == 0 then !Accepts(env.limit, out, |reply|)
      else Accepts(env.limit, out, |reply|) && k == 1 + Answered(env.kind, env.limit, req, rs[1..], after, out + reply);
    hide AllAcceptable, Delivered, SkipAfter, Answered;
    if k == 0 {
      ReadRefused(env, skip, req, out, r, more);
      NoneDelivered(env.kind, req, rs, skip);
      Associate(out, reply, replies);
    } else {
      ReadRecord(env, skip, req, out, r, more);
      RepliesRefused(env, req, rs[1..], after, out + reply, rest);
      OneDelivered(env.kind, req, rs, skip, k);
      Within(out, reply, replies, p.out);
    }
  }

  lemma NoneDelivered(kind: byte, req: Begin, rs: seq<Record>, skip: bool)
    ensures Delivered(kind, req, rs[..0], skip) == []
  {
  }

  lemma OneDelivered(kind: byte, req: Begin, rs: seq<Record>, skip: bool, k: nat)
    requires 0 < k <= |rs|
    ensures Delivered(kind, req, rs[..k], skip)
            == DeliveredOf(kind, req, rs[0], skip) + Delivered(kind, req, rs[1..][..k - 1], SkipAfter(req, rs[0], skip))
  {
    assert rs[..k][1..] == rs[1..][..k - 1] && rs[..k][0] == rs[0];
  }
}
