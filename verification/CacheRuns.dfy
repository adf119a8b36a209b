/** Whole runs of cache operations on messages in memory. */
module CacheRuns {
  import opened Basics
  import opened CoapPdu
  import opened PduSpec
  import opened PduTheorems
  import opened CacheSpec
  import opened CoapCache

  /** A message in memory, its options set one by one. */
  method Make(m: Message, timestamp: int, addr: int) returns (pdu: Pdu)
    requires ValidMessage(m) && |m.options| < 0x100 && |m.payload| <= MAX_PACKET
    ensures fresh(pdu) && fresh(pdu.opt_list) && fresh(pdu.opt_list.nodes) && fresh(pdu.payload)
    ensures pdu.Valid() && pdu.Image() == m && pdu.optcnt == |pdu.options|
    ensures pdu.timestamp == timestamp && pdu.addr == addr
  {
    hide Pdu.Filed, Ascending, ValidOptions;
    pdu := new Pdu(timestamp);
    SetOptions(pdu, m.options);
    pdu.version, pdu.kind, pdu.code, pdu.id := m.version, m.kind, m.code, m.id;
    pdu.addr := addr;
    pdu.ReadPayload(m.payload);
  }

  method SetOptions(pdu: Pdu, os: seq<CoapOption>)
    requires pdu.Valid() && pdu.options == [] && pdu.optcnt == 0
    requires ValidOptions(os) && Ascending(os, -1) && |os| < 0x100
    modifies pdu`options, pdu`optcnt, pdu.opt_list, pdu.opt_list.nodes
    ensures pdu.Valid() && pdu.options == os && pdu.optcnt == |os|
    ensures forall i :: 0 <= i < |pdu.opt_list.nodes| ==>
        pdu.opt_list.nodes[i] in old(pdu.opt_list.nodes) || fresh(pdu.opt_list.nodes[i])
  {
    hide Pdu.Filed, Ascending, ValidOptions, Put, Unset, CountUp, CountDown;
    var k := 0;
    while k < |os|
      invariant k <= |os| && pdu.Valid() && pdu.options == os[..k] && pdu.optcnt == k
      invariant forall i :: 0 <= i < |pdu.opt_list.nodes| ==>
          pdu.opt_list.nodes[i] in old(pdu.opt_list.nodes) || fresh(pdu.opt_list.nodes[i])
    {
      NextOption(os, k, -1);
      pdu.OptionInsert(os[k].code, os[k].data);
      k := k + 1;
    }
    assert os[..k] == os;
  }

  lemma {:induction false} NextOption(os: seq<CoapOption>, k: nat, floor: int)
    requires k < |os| && ValidOptions(os) && Ascending(os, floor)
    ensures |os[k].data| <= MAX_OPTION && Put(os[..k], os[k]) == os[..k + 1] && floor < os[k].code
  {
    assert os[k] in os;
    if k > 0 {
      NextOption(os[1..], k - 1, os[0].code);
      assert os[..k][1..] == os[1..][..k - 1] && os[..k + 1] == [os[0]] + os[1..][..k];
    }
  }

  /** A message the library could hold. */
  predicate Held(m: Message) {
    ValidMessage(m) && |m.options| < 0x100 && |m.payload| <= MAX_PACKET
  }

  predicate AllHeld(ops: seq<Op>) {
    forall op :: op in ops ==> Held(op.request) && (op.Add? ==> Held(op.response.message))
  }

  /** No get of the run meets a packet that takes the reader out of the packet field. */
  predicate AllReadable(ops: seq<Op>)
    requires AllValid(ops)
  {
    forall k :: 0 <= k < |ops| && ops[k].Get? ==>
      var first := FirstSince(ops[..k], Key(ops[k].request)); first.Some? ==> Readable(Entry(first.value))
  }

  /** The answer to a get for which `first` was the first response added. */
  ghost predicate Answers(r: Option<Reply>, first: Option<Response>)
    requires first.Some? ==> ValidResponse(first.value)
  {
    match first
    case None => r == None
    case Some(response) =>
      && r.Some? && r.value.timestamp == response.timestamp && r.value.addr == response.addr
      && (Lasts(response) ==> r.value == ReplyOf(response))
      && (Decoded(Entry(response)).Some? ==> r == Decoded(Entry(response)))
  }

  /** Any run of cache operations answers every get from the first response added since the last delete. */
  method Replay(ops: seq<Op>, now: int) returns (replies: seq<Option<Reply>>)
    requires AllValid(ops) && AllHeld(ops) && AllReadable(ops)
    ensures |replies| == |ops|
    ensures forall k :: 0 <= k < |ops| && ops[k].Get? ==> Answers(replies[k], FirstSince(ops[..k], Key(ops[k].request)))
  {
    hide Key, Answers, FirstSince, Readable, Entry;
    var cache := new Cache();
    replies := [];
    var k := 0;
    while k < |ops|
      invariant k == |replies| <= |ops| && fresh(cache)
      invariant AllValid(ops[..k]) && cache.db == After(ops[..k])
      invariant forall i :: 0 <= i < k && ops[i].Get? ==> Answers(replies[i], FirstSince(ops[..i], Key(ops[i].request)))
    {
      assert ValidOp(ops[k]) && ops[k] in ops;
      assert ops[..k + 1][..k] == ops[..k];
      StoredIsFirstSince(ops[..k], Key(ops[k].request));
      var r := Perform(cache, ops[k], now, FirstSince(ops[..k], Key(ops[k].request)));
      replies := replies + [r];
      k := k + 1;
    }
  }

  /** What is stored under the key of the request is `first`. */
  ghost predicate Holds(db: Database, request: Message, first: Option<Response>)
    requires first.Some? ==> ValidResponse(first.value)
  {
    && (Key(request) in db <==> first.Some?)
    && (first.Some? ==> db[Key(request)] == Entry(first.value))
  }

  method Perform(cache: Cache, op: Op, now: int, ghost first: Option<Response>) returns (r: Option<Reply>)
    requires ValidOp(op) && Held(op.request) && (op.Add? ==> Held(op.response.message))
    requires (first.Some? ==> ValidResponse(first.value)) && Holds(cache.db, op.request, first)
    requires op.Get? && first.Some? ==> Readable(Entry(first.value))
    modifies cache
    ensures cache.db == Step(old(cache.db), op)
    ensures op.Get? ==> Answers(r, first)
  {
    hide Pdu.Valid, Key, ValidMessage, Size, Decoded, Entry, Readable, Answers;
    r := None;
    match op {
      case Add(request, response) => PerformAdd(cache, request, response);
      case Get(request) => r := PerformGet(cache, request, now, first);
      case Delete(request) => PerformDelete(cache, request, now);
    }
  }

  method PerformAdd(cache: Cache, request: Message, response: Response)
    requires Held(request) && Held(response.message) && ValidResponse(response)
    modifies cache
    ensures cache.db == Step(old(cache.db), Add(request, response))
  {
    hide Pdu.Filed, Ascending, ValidOptions, Key, Size, Entry, Step;
    var q := Make(request, response.timestamp, response.addr);
    var p := Make(response.message, response.timestamp, response.addr);
    p.optcnt := response.count;
    var _ := cache.Add(q, p);
  }

  method PerformGet(cache: Cache, request: Message, now: int, ghost first: Option<Response>) returns (r: Option<Reply>)
    requires Held(request) && (first.Some? ==> ValidResponse(first.value)) && Holds(cache.db, request, first)
    requires first.Some? ==> Readable(Entry(first.value))
    ensures Answers(r, first)
  {
    hide Pdu.Valid, Key, ValidMessage, Read, Entry, Readable, Lasts;
    r := None;
    var q := Make(request, now, 0);
    var got := cache.Get(q, now);
    if got.Some? {
      var p := got.value;
      var m := Shown(p);
      r := Some(Reply(m, p.timestamp, p.addr));
      EntryDecoded(first.value);
      StampKept(first.value);
    }
  }

  lemma StampKept(r: Response)
    requires ValidResponse(r)
    ensures Entry(r).timestamp == r.timestamp && Entry(r).addr == r.addr
  {
  }

  method PerformDelete(cache: Cache, request: Message, now: int)
    requires Held(request)
    modifies cache
    ensures cache.db == Step(old(cache.db), Delete(request))
  {
    hide Pdu.Valid, Key, ValidMessage, Step;
    var q := Make(request, now, 0);
    cache.Delete(q);
  }

  /** The message, read out field by field and option by option. */
  method Shown(pdu: Pdu) returns (m: Message)
    requires pdu.Valid()
    modifies pdu.opt_list`current, pdu.opt_list`upcoming, pdu.opt_list`position
    ensures pdu.Valid() && m == pdu.Image()
  {
    hide Pdu.Filed, Ascending, ValidOptions;
    var os := [];
    ghost var k := 0;
    var more := pdu.FirstOption();
    while more
      invariant pdu.Valid() && pdu.Visiting(k, more) && os == pdu.options[..k]
      decreases |pdu.options| - k
    {
      os := os + [pdu.opt_list.This().data];
      more := pdu.NextOption(k);
      k := k + 1;
    }
    m := Message(pdu.version, pdu.kind, pdu.code, pdu.id, os, pdu.payload[..pdu.payload_len]);
  }
}
