/** Options over whole runs of operations, and messages that go through a buffer. */
module PduRuns {
  import opened Basics
  import opened PduSpec
  import opened PduTheorems
  import opened CoapPdu

  datatype Op =
    | Insert(code: byte, value: seq<byte>)
    | Unset(code: byte)
    | Get(code: byte)
    | Clean

  predicate ValidOp(op: Op) {
    op.Insert? ==> |op.value| <= MAX_OPTION
  }

  /** What the options amount to: a map, and the counter in the header. */
  datatype Book = Book(options: map<byte, seq<byte>>, count: byte)

  const EMPTY := Book(map[], 0)

  function Step(b: Book, op: Op): Book {
    match op
    case Insert(code, value) => Book(b.options[code := value], CountUp(CountDown(b.count, code in b.options)))
    case Unset(code) => Book(b.options - {code}, CountDown(b.count, code in b.options))
    case Get(_) => b
    case Clean => EMPTY
  }

  function After(b: Book, ops: seq<Op>): Book {
    if ops == [] then b else Step(After(b, ops[..|ops| - 1]), ops[|ops| - 1])
  }

  ghost predicate Tracks(pdu: Pdu, b: Book)
    reads pdu, pdu.opt_list, pdu.opt_list.nodes
  {
    pdu.Valid() && AsMap(pdu.options) == b.options && pdu.optcnt == b.count
  }

  function Answer(b: Book, op: Op): Option<seq<byte>> {
    if op.Get? && op.code in b.options then Some(b.options[op.code]) else None
  }

  lemma {:induction false} LookupIsMap(os: seq<CoapOption>, code: byte)
    ensures Lookup(os, code).Some? <==> code in AsMap(os)
    ensures code in AsMap(os) ==> Lookup(os, code).value == CoapOption(code, AsMap(os)[code])
  {
    if os != [] {
      LookupIsMap(os[1..], code);
    }
  }

  lemma PutStep(os: seq<CoapOption>, code: byte, value: seq<byte>)
    requires Ascending(os, -1)
    ensures AsMap(Put(os, CoapOption(code, value))) == AsMap(os)[code := value]
    ensures |PduSpec.Unset(os, code)| < |os| <==> code in AsMap(os)
    ensures AsMap(PduSpec.Unset(os, code)) == AsMap(os) - {code}
  {
    PutKeeps(os, CoapOption(code, value), -1);
    UnsetKeeps(os, code, -1);
  }

  method Perform(pdu: Pdu, op: Op, ghost b: Book) returns (r: Option<seq<byte>>)
    requires Tracks(pdu, b) && ValidOp(op)
    modifies pdu, pdu.opt_list, pdu.opt_list.nodes, pdu.payload
    ensures Tracks(pdu, Step(b, op)) && r == Answer(b, op)
    ensures forall i :: 0 <= i < |pdu.opt_list.nodes| ==>
        pdu.opt_list.nodes[i] in old(pdu.opt_list.nodes) || fresh(pdu.opt_list.nodes[i])
  {
    hide Pdu.Filed, Ascending, ValidOptions, AsMap, Put, PduSpec.Unset, Lookup;
    r := None;
    match op {
      case Insert(code, value) =>
        PutStep(pdu.options, code, value);
        pdu.OptionInsert(code, value);
      case Unset(code) =>
        PutStep(pdu.options, code, []);
        var _ := pdu.OptionUnset(code);
      case Get(code) =>
        LookupIsMap(pdu.options, code);
        var o := pdu.OptionGet(code);
        r := if o.Some? then Some(o.value.data) else None;
      case Clean =>
        pdu.Clean();
        assert AsMap([]) == map[] by { NoOptions(); }
    }
  }

  lemma NoOptions()
    ensures AsMap([]) == map[]
  {
  }

  /** Any run of operations on a created message does to its list what it does to a map. */
  method PerformAll(ops: seq<Op>, now: int) returns (pdu: Pdu, answers: seq<Option<seq<byte>>>)
    requires forall op :: op in ops ==> ValidOp(op)
    ensures Tracks(pdu, After(EMPTY, ops)) && |answers| == |ops|
    ensures forall k :: 0 <= k < |ops| ==> answers[k] == Answer(After(EMPTY, ops[..k]), ops[k])
  {
    hide Pdu.Valid, Answer, Step;
    pdu := Created(now);
    answers := [];
    var k := 0;
    while k < |ops|
      invariant 0 <= k == |answers| <= |ops|
      invariant Tracks(pdu, After(EMPTY, ops[..k]))
      invariant fresh(pdu) && fresh(pdu.opt_list) && fresh(pdu.opt_list.nodes) && fresh(pdu.payload)
      invariant forall i :: 0 <= i < k ==> answers[i] == Answer(After(EMPTY, ops[..i]), ops[i])
    {
      assert ops[..k + 1][..k] == ops[..k];
      var r := Perform(pdu, ops[k], After(EMPTY, ops[..k]));
      answers := answers + [r];
      k := k + 1;
    }
    assert ops[..k] == ops;
  }

  method Created(now: int) returns (pdu: Pdu)
    ensures Tracks(pdu, EMPTY)
    ensures fresh(pdu) && fresh(pdu.opt_list) && fresh(pdu.opt_list.nodes) && fresh(pdu.payload)
  {
    pdu := new Pdu(now);
  }

  // ------------------------------------------------------------------ the option counter

  lemma StepCount(b: Book, op: Op)
    requires b.count == |b.options|
    ensures |Step(b, op).options| < 0x100 ==> Step(b, op).count == |Step(b, op).options|
    ensures |Step(b, op).options| <= |b.options| + 1
  {
    match op {
      case Insert(code, value) => SizeWith(b.options, code, value);
      case Unset(code) => SizeWithout(b.options, code);
      case _ =>
    }
  }

  lemma SizeWith(m: map<byte, seq<byte>>, code: byte, value: seq<byte>)
    ensures |m[code := value]| == if code in m then |m| else |m| + 1
  {
    var now := m[code := value];
    assert |now| == |now.Keys| && |m| == |m.Keys|;
    assert now.Keys == m.Keys + {code};
  }

  lemma SizeWithout(m: map<byte, seq<byte>>, code: byte)
    ensures |m - {code}| == if code in m then |m| - 1 else |m|
  {
    var now := m - {code};
    assert |now| == |now.Keys| && |m| == |m.Keys|;
    assert now.Keys == m.Keys - {code};
  }

  lemma {:induction false} CountHolds(ops: seq<Op>)
    requires forall k :: 0 <= k <= |ops| ==> |After(EMPTY, ops[..k]).options| < 0x100
    ensures After(EMPTY, ops).count == |After(EMPTY, ops).options|
  {
    hide Step;
    if ops != [] {
      var n := |ops| - 1;
      forall k | 0 <= k <= n
        ensures |After(EMPTY, ops[..n][..k]).options| < 0x100
      {
        assert ops[..n][..k] == ops[..k];
      }
      CountHolds(ops[..n]);
      StepCount(After(EMPTY, ops[..n]), ops[n]);
      assert ops[..|ops|] == ops;
    }
  }

  /** Over a run, the counter is the number of options throughout just when all 256 codes are never set at once:
    * the counter is one byte.
    */
  lemma CounterIsExact(ops: seq<Op>)
    ensures (forall k :: 0 <= k <= |ops| ==> After(EMPTY, ops[..k]).count == |After(EMPTY, ops[..k]).options|) <==>
            (forall k :: 0 <= k <= |ops| ==> |After(EMPTY, ops[..k]).options| < 0x100)
  {
    if forall k :: 0 <= k <= |ops| ==> |After(EMPTY, ops[..k]).options| < 0x100 {
      forall k | 0 <= k <= |ops|
        ensures After(EMPTY, ops[..k]).count == |After(EMPTY, ops[..k]).options|
      {
        forall j | 0 <= j <= k
          ensures |After(EMPTY, ops[..k][..j]).options| < 0x100
        {
          assert ops[..k][..j] == ops[..j];
        }
        assert |ops[..k]| == k;
        CountHolds(ops[..k]);
      }
    }
    if forall k :: 0 <= k <= |ops| ==> After(EMPTY, ops[..k]).count == |After(EMPTY, ops[..k]).options| {
      forall k | 0 <= k <= |ops|
        ensures |After(EMPTY, ops[..k]).options| < 0x100
      {
        assert After(EMPTY, ops[..k]).count < 0x100;
      }
    }
  }

  /** Once full, the counter is 0 and stays there when an option is taken out. */
  lemma FullCounterSticks(b: Book, code: byte)
    requires b.count == |b.options| == 0xff && code !in b.options
    ensures var full := Step(b, Insert(code, []));
      var less := Step(full, Unset(code));
      full.count == 0 && |full.options| == 0x100 && less.count == 0 && |less.options| == 0xff
  {
    var full := b.options[code := []];
    assert full.Keys == b.options.Keys + {code};
    assert full - {code} == b.options;
  }

  // ------------------------------------------------------------------ through a buffer

  /** What the packet of `m` makes of a buffer. */
  function Written(m: Message, count: byte, buffer: seq<byte>): (s: seq<byte>)
    requires ValidMessage(m) && Fits(m) && Extent(m) <= |buffer|
    ensures Size(m) <= |s| == |buffer|
  {
    WriterStaysInside(m);
    EncodedSize(m.options, 0);
    Encode(m, count) + buffer[Size(m)..]
  }

  /** The buffer has room for all the writer fills, and then for all the reader looks at. */
  predicate HasRoom(m: Message, count: byte, buffer: seq<byte>)
    requires ValidMessage(m)
  {
    Extent(m) <= |buffer| && (Fits(m) ==> Reach(Written(m, count, buffer), Size(m)) <= |buffer|)
  }

  /** The size of the packet is enough for one that comes back, and 270 bytes more for any. */
  lemma EnoughRoom(m: Message, count: byte, buffer: seq<byte>)
    requires ValidMessage(m) && Size(m) <= |buffer|
    requires (Exact(m) && Counted(m, count)) || Size(m) + MAX_OPTION <= |buffer|
    ensures HasRoom(m, count, buffer)
  {
    hide Encode, Read, Reach, Exact, Counted;
    WriterStaysInside(m);
    RoundTrip(m, count);
    if Fits(m) {
      EncodedSize(m.options, 0);
      var memory := Written(m, count, buffer);
      assert memory[..Size(m)] == Encode(m, count);
      ReaderStaysInside(memory, Size(m));
    }
  }

  /** Writing one message and reading the packet into another copies it just when the round trip is exact. */
  method Transfer(a: Pdu, b: Pdu, buffer: array<byte>, now: int) returns (ok: bool)
    requires a.Valid() && b.Valid() && a != b && a.opt_list != b.opt_list && a.payload != b.payload
    requires buffer != a.payload && buffer != b.payload
    requires forall i, j ::
        0 <= i < |a.opt_list.nodes| && 0 <= j < |b.opt_list.nodes| ==> a.opt_list.nodes[i] != b.opt_list.nodes[j]
    requires HasRoom(a.Image(), a.optcnt, buffer[..])
    modifies buffer, a.opt_list`current, a.opt_list`upcoming, a.opt_list`position
    modifies b, b.opt_list, b.opt_list.nodes, b.payload
    ensures a.Valid() && a.Image() == old(a.Image()) && a.optcnt == old(a.optcnt) && b.Valid()
    ensures (ok && b.Image() == a.Image()) <==> Exact(a.Image()) && Counted(a.Image(), a.optcnt)
    ensures ok ==> b.optcnt == |b.options| && b.timestamp == now
  {
    hide Pdu.Filed, Ascending, ValidOptions, Fits, Read, Encode, Exact, Counted, Size, Extent, Reach;
    RoundTrip(a.Image(), a.optcnt);
    WriterStaysInside(a.Image());
    ghost var before := buffer[..];
    var len;
    ok, len := a.PacketWrite(buffer);
    if ok {
      assert before[len..] == old(buffer[len..]);
      assert buffer[..] == buffer[..len] + buffer[len..] == Written(a.Image(), a.optcnt, before);
      ok := b.PacketRead(buffer[..], len, now);
      assert buffer[..][..len] == buffer[..len];
    }
  }
}
