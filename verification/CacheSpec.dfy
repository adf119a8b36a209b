/** The response cache as a map, and what a client of it may rely on. */
module CacheSpec {
  import opened Basics
  import opened PduSpec
  import opened PduTheorems
  import opened Md5Spec

  const MAXAGE: byte := 2
  const ETAG: byte := 4
  const TOKEN: byte := 11

  predicate Ignored(code: byte) {
    code == MAXAGE || code == ETAG || code == TOKEN
  }

  /** What of the options goes into the key. */
  function Hashed(os: seq<CoapOption>): seq<byte> {
    if os == [] then []
    else (if Ignored(os[0].code) then [] else [os[0].code] + os[0].data) + Hashed(os[1..])
  }

  function HashInput(m: Message): seq<byte> {
    [m.version, m.kind, m.code] + Hashed(m.options)
  }

  function Bits(s: seq<byte>): (b: seq<bv8>)
    ensures |b| == |s|
    ensures forall i :: 0 <= i < |s| ==> b[i] == s[i] as bv8
  {
    seq(|s|, i requires 0 <= i < |s| => s[i] as bv8)
  }

  /** `coap_hash` */
  function Key(m: Message): seq<bv8> {
    Digest(Bits(HashInput(m)))
  }

  /** `coap_cache_t` */
  datatype Stored = Stored(timestamp: int, packet: seq<byte>, packet_len: nat, addr: int)

  type Database = map<seq<bv8>, Stored>

  /** What is added: a message with its option counter, the time it was stamped with, and the address of the request. */
  datatype Response = Response(message: Message, count: byte, timestamp: int, addr: int)

  datatype Reply = Reply(message: Message, timestamp: int, addr: int)

  datatype Op =
    | Add(request: Message, response: Response)
    | Get(request: Message)
    | Delete(request: Message)

  /** What a caller may add: a response that fits the packet field. */
  predicate ValidResponse(r: Response) {
    ValidMessage(r.message) && Size(r.message) <= MAX_PACKET
  }

  predicate ValidOp(op: Op) {
    op.Add? ==> ValidResponse(op.response)
  }

  predicate AllValid(ops: seq<Op>) {
    forall k :: 0 <= k < |ops| ==> ValidOp(ops[k])
  }

  /** The packet field, zero past the packet. */
  function Padded(packet: seq<byte>): seq<byte>
    requires |packet| <= MAX_PACKET
  {
    packet + seq(MAX_PACKET - |packet|, _ => 0)
  }

  lemma EncodedLength(m: Message, count: byte)
    requires ValidMessage(m)
    ensures |Encode(m, count)| == Size(m)
  {
    EncodedSize(m.options, 0);
  }

  function Entry(r: Response): (s: Stored)
    requires ValidResponse(r)
    ensures s.packet_len <= |s.packet| == MAX_PACKET
  {
    EncodedLength(r.message, r.count);
    Stored(r.timestamp, Padded(Encode(r.message, r.count)), Size(r.message), r.addr)
  }

  function Step(db: Database, op: Op): Database
    requires ValidOp(op)
  {
    match op
    case Add(request, response) => if Key(request) in db then db else db[Key(request) := Entry(response)]
    case Get(_) => db
    case Delete(request) => db - {Key(request)}
  }

  function After(ops: seq<Op>): Database
    requires AllValid(ops)
  {
    if ops == [] then map[] else Step(After(ops[..|ops| - 1]), ops[|ops| - 1])
  }

  /** What a get makes of what is stored. */
  function Fetch(db: Database, request: Message): Option<Reply> {
    if Key(request) in db then Decoded(db[Key(request)]) else None
  }

  function Decoded(s: Stored): Option<Reply> {
    if s.packet_len > |s.packet| then None
    else match Read(s.packet[..s.packet_len])
      case None => None
      case Some(m) => Some(Reply(m, s.timestamp, s.addr))
  }

  /** The first response added under `key` since the last delete of it. */
  function FirstSince(ops: seq<Op>, key: seq<bv8>): (r: Option<Response>)
    requires AllValid(ops)
    ensures r.Some? ==> ValidResponse(r.value)
  {
    if ops == [] then None
    else
      var before := FirstSince(ops[..|ops| - 1], key);
      match ops[|ops| - 1]
      case Add(request, response) => if Key(request) == key && before.None? then Some(response) else before
      case Get(_) => before
      case Delete(request) => if Key(request) == key then None else before
  }

  // ------------------------------------------------------------------ what a get returns

  /** The conditions of the round trip. */
  predicate Lasts(r: Response) {
    Exact(r.message) && Counted(r.message, r.count)
  }

  function ReplyOf(r: Response): Reply {
    Reply(r.message, r.timestamp, r.addr)
  }

  /** A stored response comes back just as it was exactly when it meets the conditions of the round trip. */
  lemma EntryDecoded(r: Response)
    requires ValidResponse(r)
    ensures Decoded(Entry(r)) == Some(ReplyOf(r)) <==> Lasts(r)
  {
    hide Encode, Read, Exact, Counted, Size;
    RoundTrip(r.message, r.count);
    EncodedLength(r.message, r.count);
    var packet := Encode(r.message, r.count);
    assert Padded(packet)[..|packet|] == packet;
    SizeFits(r.message);
  }

  lemma SizeFits(m: Message)
    requires Size(m) <= MAX_PACKET
    ensures Fits(m)
  {
    SmallFits(m.options, 4);
  }

  /** Over any run, what is stored under a key is the first response added since the last delete. */
  lemma {:induction false} StoredIsFirstSince(ops: seq<Op>, key: seq<bv8>)
    requires AllValid(ops)
    ensures key in After(ops) <==> FirstSince(ops, key).Some?
    ensures key in After(ops) ==> After(ops)[key] == Entry(FirstSince(ops, key).value)
  {
    hide Key, Entry;
    if ops != [] {
      StoredIsFirstSince(ops[..|ops| - 1], key);
    }
  }

  /** So a get returns the first response added since the last delete for the key of the request, with its time and
    * address, just when that response meets the conditions of the round trip, and finds nothing just when there is
    * none.
    */
  lemma GetIsFirstSince(ops: seq<Op>, request: Message)
    requires AllValid(ops)
    ensures var first := FirstSince(ops, Key(request));
      && (first.None? <==> Key(request) !in After(ops))
      && (first.None? ==> Fetch(After(ops), request).None?)
      && (first.Some? ==> (Fetch(After(ops), request) == Some(ReplyOf(first.value)) <==> Lasts(first.value)))
  {
    hide Key, Entry, Decoded, Lasts, FirstSince, After;
    StoredIsFirstSince(ops, Key(request));
    if Key(request) in After(ops) {
      EntryDecoded(FirstSince(ops, Key(request)).value);
    }
  }

  // ------------------------------------------------------------------ which requests share a key

  function Relevant(os: seq<CoapOption>): seq<CoapOption> {
    if os == [] then [] else if Ignored(os[0].code) then Relevant(os[1..]) else [os[0]] + Relevant(os[1..])
  }

  lemma {:induction false} RelevantMap(os: seq<CoapOption>, floor: int)
    requires Ascending(os, floor)
    ensures Ascending(Relevant(os), floor)
    ensures AsMap(Relevant(os)) == AsMap(os) - {2, 4, 11}
    ensures Hashed(Relevant(os)) == Hashed(os)
  {
    if os != [] {
      RelevantMap(os[1..], os[0].code);
      CodesAbove(os[1..], os[0].code);
      if Ignored(os[0].code) {
        Weaken(Relevant(os[1..]), os[0].code, floor);
      } else {
        assert Relevant(os)[1..] == Relevant(os[1..]);
      }
    }
  }

  /** What one option puts into the key: its code and value, unless it is Max-Age (2), ETag (4) or Token (11). */
  function Piece(o: CoapOption): seq<byte> {
    if o.code in {2, 4, 11} then [] else [o.code] + o.data
  }

  /** What is hashed: version, type and code of the message, and then the pieces of its options, in order. */
  lemma HashedBytes(m: Message, k: nat)
    requires k < |m.options|
    ensures HashInput(m)[0] == m.version && HashInput(m)[1] == m.kind && HashInput(m)[2] == m.code
    ensures HashInput(m)[3..]
            == Hashed(m.options[..k]) + (Piece(m.options[k]) + Hashed(m.options[k + 1..])) && Hashed([]) == []
  {
    var rest := m.options[k..];
    assert HashInput(m)[3..] == Hashed(m.options);
    assert m.options == m.options[..k] + rest && rest[1..] == m.options[k + 1..];
    HashedAppend(m.options[..k], rest);
    assert Hashed(rest) == Piece(rest[0]) + Hashed(rest[1..]);
  }

  lemma {:induction false} HashedAppend(a: seq<CoapOption>, b: seq<CoapOption>)
    ensures Hashed(a + b) == Hashed(a) + Hashed(b)
  {
    hide Ignored;
    if a == [] {
      assert a + b == b;
    } else {
      HashedAppend(a[1..], b);
      assert (a + b)[1..] == a[1..] + b && (a + b)[0] == a[0];
      Associate(if Ignored(a[0].code) then [] else [a[0].code] + a[0].data, Hashed(a[1..]), Hashed(b));
    }
  }

  /** Requests that differ only in message id, payload, token, ETag and Max-Age share a key, whatever the order
    * their options were set in.
    */
  lemma SameKey(a: Message, b: Message)
    requires Ascending(a.options, -1) && Ascending(b.options, -1)
    requires a.version == b.version && a.kind == b.kind && a.code == b.code
    requires AsMap(a.options) - {2, 4, 11} == AsMap(b.options) - {2, 4, 11}
    ensures Key(a) == Key(b)
  {
    hide Digest;
    RelevantMap(a.options, -1);
    RelevantMap(b.options, -1);
    SortedIsUnique(Relevant(a.options), Relevant(b.options), -1);
  }

  /** Two lists of options with as many options, of the same lengths. */
  predicate SameLengths(a: seq<CoapOption>, b: seq<CoapOption>) {
    |a| == |b| && forall i :: 0 <= i < |a| ==> |a[i].data| == |b[i].data|
  }

  predicate NoneIgnored(os: seq<CoapOption>) {
    forall i :: 0 <= i < |os| ==> !Ignored(os[i].code)
  }

  lemma {:induction false} RelevantOnly(os: seq<CoapOption>)
    ensures NoneIgnored(Relevant(os)) && Hashed(Relevant(os)) == Hashed(os)
  {
    if os != [] {
      RelevantOnly(os[1..]);
      if !Ignored(os[0].code) {
        assert Relevant(os)[1..] == Relevant(os[1..]);
      }
    }
  }

  lemma {:induction false} LengthsDecide(a: seq<CoapOption>, b: seq<CoapOption>)
    requires NoneIgnored(a) && NoneIgnored(b) && Hashed(a) == Hashed(b) && SameLengths(a, b)
    ensures a == b
  {
    if a != [] {
      var x, y := [a[0].code] + a[0].data, [b[0].code] + b[0].data;
      assert x == Hashed(a)[..|x|] && Hashed(a[1..]) == Hashed(a)[|x|..];
      assert y == Hashed(b)[..|y|] && Hashed(b[1..]) == Hashed(b)[|y|..];
      assert x[1..] == a[0].data && y[1..] == b[0].data && x[0] == a[0].code && y[0] == b[0].code;
      TailsFine(a, b);
      LengthsDecide(a[1..], b[1..]);
      assert a == [a[0]] + a[1..] && b == [b[0]] + b[1..];
    }
  }

  lemma TailsFine(a: seq<CoapOption>, b: seq<CoapOption>)
    requires NoneIgnored(a) && NoneIgnored(b) && SameLengths(a, b) && a != []
    ensures NoneIgnored(a[1..]) && NoneIgnored(b[1..]) && SameLengths(a[1..], b[1..])
  {
    hide Ignored;
    assert forall i :: 0 <= i < |a| - 1 ==> a[1..][i] == a[i + 1];
    assert forall i :: 0 <= i < |b| - 1 ==> b[1..][i] == b[i + 1];
  }

  /** When two requests are hashed from the same bytes their header fields are the same, and the options that count
    * are the same exactly when they are as many and as long. So a shared key, short of a collision of the digest
    * itself, stands for different requests exactly when the lengths of their options differ.
    */
  lemma CollisionsAreExact(a: Message, b: Message)
    requires HashInput(a) == HashInput(b)
    ensures a.version == b.version && a.kind == b.kind && a.code == b.code
    ensures Relevant(a.options) == Relevant(b.options) <==> SameLengths(Relevant(a.options), Relevant(b.options))
  {
    var s, t := HashInput(a), HashInput(b);
    assert s[0] == a.version && s[1] == a.kind && s[2] == a.code && s[3..] == Hashed(a.options);
    assert t[0] == b.version && t[1] == b.kind && t[2] == b.code && t[3..] == Hashed(b.options);
    RelevantOnly(a.options);
    RelevantOnly(b.options);
    if SameLengths(Relevant(a.options), Relevant(b.options)) {
      LengthsDecide(Relevant(a.options), Relevant(b.options));
    }
  }

  /** Codes and values run together in what is hashed: two requests with different options that share a key. */
  lemma DifferentRequestsShareKey(a: Message)
    requires a.options == [CoapOption(9, [97]), CoapOption(15, [98])]
    ensures var b := a.(options := [CoapOption(9, [97, 15, 98])]);
      ValidMessage(a) && ValidMessage(b) && a != b && Key(a) == Key(b)
  {
    hide Digest;
    var b := a.(options := [CoapOption(9, [97, 15, 98])]);
    assert a.options[1..] == [CoapOption(15, [98])] && a.options[1..][1..] == [] && b.options[1..] == [];
    assert Ascending(a.options[1..], 9) && Ascending(b.options[1..], 9);
    assert Hashed(a.options[1..]) == [15, 98] + Hashed([]);
    assert Hashed(a.options) == [9, 97] + Hashed(a.options[1..]);
    assert Hashed(a.options) == [9, 97, 15, 98];
    assert Hashed(b.options) == [9, 97, 15, 98] + Hashed([]);
    assert Hashed(b.options) == [9, 97, 15, 98];
  }
}
