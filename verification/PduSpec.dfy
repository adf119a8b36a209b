/** CoAP messages and their packets, laid out as sections 3.1 and 3.2 of draft-ietf-core-coap-08
  * have them, with the message id in the byte order of a little-endian host.
  */
module PduSpec {
  import opened Basics

  const MAX_OPTION: nat := 270
  const MAX_PACKET: nat := 1400
  const HEADER_STRUCT: nat := 6

  datatype CoapOption = CoapOption(code: byte, data: seq<byte>)

  datatype Message = Message(version: byte, kind: byte, code: byte, id: uint16, options: seq<CoapOption>,
                             payload: seq<byte>)

  predicate ValidOptions(os: seq<CoapOption>) {
    forall o :: o in os ==> |o.data| <= MAX_OPTION
  }

  /** Codes strictly ascend, all above `floor`. */
  predicate Ascending(os: seq<CoapOption>, floor: int) {
    os == [] || (floor < os[0].code && Ascending(os[1..], os[0].code))
  }

  predicate ValidMessage(m: Message) {
    ValidOptions(m.options) && Ascending(m.options, -1)
  }

  // ------------------------------------------------------------------ the packet a writer makes

  /** Bitwise or of two numbers of two bits. */
  function Or(a: nat, b: nat): (r: nat)
    requires a < 4 && b < 4
    ensures r < 4
  {
    (if a % 2 == 1 || b % 2 == 1 then 1 else 0) + (if a / 2 == 1 || b / 2 == 1 then 2 else 0)
  }

  /** (version << 6) | (kind << 4) | (count & 15), cut to a byte. */
  function FirstByte(version: byte, kind: byte, count: byte): byte {
    64 * Or(version % 4, kind / 4 % 4) + 16 * (kind % 4) + count % 16
  }

  /** The delta is cut to four bits, and only lengths above 15 get an extension byte. */
  function EncodeHead(o: CoapOption, previous: byte): (h: seq<byte>)
    requires |o.data| <= MAX_OPTION
    ensures |h| == Head(|o.data|)
  {
    var delta := (o.code - previous) % 16;
    if |o.data| > 15 then [16 * delta + 15, |o.data| - 15] else [16 * delta + |o.data|]
  }

  function EncodeOption(o: CoapOption, previous: byte): seq<byte>
    requires |o.data| <= MAX_OPTION
  {
    EncodeHead(o, previous) + o.data
  }

  function EncodeOptions(os: seq<CoapOption>, previous: byte): seq<byte>
    requires ValidOptions(os)
  {
    if os == [] then [] else EncodeOption(os[0], previous) + EncodeOptions(os[1..], os[0].code)
  }

  function Header(version: byte, kind: byte, count: byte, code: byte, id: uint16): (h: seq<byte>)
    ensures |h| == 4
  {
    [FirstByte(version, kind, count), code, id % 0x100, id / 0x100]
  }

  /** The packet of `m`, where `count` is what the option counter holds. */
  function Encode(m: Message, count: byte): seq<byte>
    requires ValidOptions(m.options)
  {
    Header(m.version, m.kind, count, m.code, m.id) + EncodeOptions(m.options, 0) + m.payload
  }

  function Head(length: nat): nat {
    if length > 15 then 2 else 1
  }

  function WriteSize(os: seq<CoapOption>): nat {
    if os == [] then 0 else Head(|os[0].data|) + |os[0].data| + WriteSize(os[1..])
  }

  function Size(m: Message): nat {
    4 + WriteSize(m.options) + |m.payload|
  }

  /** The writer only tests where a piece begins: the data of each option, and a payload. */
  predicate OptionsFit(os: seq<CoapOption>, at: nat) {
    os == [] || (at + Head(|os[0].data|) <= MAX_PACKET && OptionsFit(os[1..], at + Head(|os[0].data|) + |os[0].data|))
  }

  predicate Fits(m: Message) {
    OptionsFit(m.options, 4) && (m.payload != [] ==> 4 + WriteSize(m.options) <= MAX_PACKET)
  }

  /** Where the writer has got to in its buffer after the head of an option that begins at `at`; each byte of it is
    * tested just before it is written.
    */
  function HeadExtent(o: CoapOption, at: nat): (e: nat)
    ensures e >= at
  {
    if at > MAX_PACKET then at else if Head(|o.data|) == 2 && at + 1 > MAX_PACKET then at + 1 else at + Head(|o.data|)
  }

  function OptionExtent(o: CoapOption, at: nat): (e: nat)
    ensures e >= at
  {
    if at + Head(|o.data|) > MAX_PACKET then HeadExtent(o, at) else at + Head(|o.data|) + |o.data|
  }

  /** Where it has got to after the options and a payload of `payloadLen` bytes, or where it gave up. */
  function ExtentFrom(os: seq<CoapOption>, at: nat, payloadLen: nat): (e: nat)
    ensures e >= at
  {
    if os == [] then (if at <= MAX_PACKET then at + payloadLen else at)
    else if at + Head(|os[0].data|) > MAX_PACKET then OptionExtent(os[0], at)
    else ExtentFrom(os[1..], OptionExtent(os[0], at), payloadLen)
  }

  /** How much of its buffer the writer fills, be it that it succeeds or that it fails. */
  function Extent(m: Message): (e: nat)
    ensures e >= 4
  {
    ExtentFrom(m.options, 4, |m.payload|)
  }

  // ------------------------------------------------------------------ the message a reader finds

  datatype One = One(option: CoapOption, rest: seq<byte>)

  datatype Parsed = Parsed(options: seq<CoapOption>, rest: seq<byte>)

  /** The option at the front of `s`; a nibble of 15 says that an extension byte follows. */
  function ParseOption(s: seq<byte>, code: nat): Option<One>
    requires code + 15 < 0x100
  {
    if |s| == 0 || (s[0] % 16 == 15 && |s| == 1) then None
    else
      var length: int := if s[0] % 16 == 15 then 15 + s[1] as int else s[0] % 16;
      var body := if s[0] % 16 == 15 then s[2..] else s[1..];
      if |body| < length then None
      else Some(One(CoapOption(code + s[0] / 16, body[..length]), body[length..]))
  }

  /** `count` options at the front of `s`, the codes counting on from `code`. */
  function ParseOptions(s: seq<byte>, code: nat, count: nat): Option<Parsed>
    requires code + 15 * count < 0x100
    decreases count
  {
    if count == 0 then Some(Parsed([], s))
    else match ParseOption(s, code)
      case None => None
      case Some(one) => Before(one.option, ParseOptions(one.rest, one.option.code, count - 1))
  }

  /** How far into `memory` the reader has looked, and where it goes on, after the option that begins at `at` in a
    * packet of `limit` bytes: a position is tested against the end with one byte to spare, and a value is copied
    * before its end is.
    */
  function OptionReach(memory: seq<byte>, limit: nat, at: nat): (r: nat)
    requires at <= limit <= |memory|
    ensures at < r <= limit + MAX_OPTION
  {
    if at == |memory| then at + 1
    else if memory[at] % 16 != 15 then (if at + 1 > limit then at + 1 else at + 1 + memory[at] % 16)
    else if at + 1 > limit then at + 1
    else if at + 1 == |memory| || at + 2 > limit then at + 2
    else at + 17 + memory[at + 1] as int
  }

  function ReachFrom(memory: seq<byte>, limit: nat, at: nat, count: nat): (r: nat)
    requires limit <= |memory|
    ensures r >= at
    ensures at <= limit + MAX_OPTION ==> r <= limit + MAX_OPTION
    decreases count
  {
    if count == 0 || at > limit then at else ReachFrom(memory, limit, OptionReach(memory, limit, at), count - 1)
  }

  /** How far the options take the reader of a packet. */
  function Reach(memory: seq<byte>, limit: nat): nat
    requires limit <= |memory|
  {
    if HEADER_STRUCT <= limit <= MAX_PACKET then ReachFrom(memory, limit, 4, memory[0] % 16) else 0
  }

  function Before(o: CoapOption, r: Option<Parsed>): Option<Parsed> {
    match r
    case None => None
    case Some(p) => Some(Parsed([o] + p.options, p.rest))
  }

  /** What a list sorted by code is after an option has been set. */
  function Put(os: seq<CoapOption>, o: CoapOption): seq<CoapOption> {
    if os == [] then [o]
    else if o.code < os[0].code then [o] + os
    else if o.code == os[0].code then [o] + os[1..]
    else [os[0]] + Put(os[1..], o)
  }

  function Unset(os: seq<CoapOption>, code: byte): seq<CoapOption> {
    if os == [] then [] else if os[0].code == code then os[1..] else [os[0]] + Unset(os[1..], code)
  }

  /** The options of a packet, set one after the other. */
  function PutAll(os: seq<CoapOption>, more: seq<CoapOption>): seq<CoapOption>
    decreases |more|
  {
    if more == [] then os else PutAll(Put(os, more[0]), more[1..])
  }

  function Read(s: seq<byte>): Option<Message> {
    if |s| > MAX_PACKET || |s| < HEADER_STRUCT then None
    else match ParseOptions(s[4..], 0, s[0] % 16)
      case None => None
      case Some(p) =>
        Some(Message(s[0] / 64, s[0] / 16 % 4, s[1], s[2] as int + 0x100 * s[3] as int, PutAll([], p.options), p.rest))
  }

  /** The code of the last option, or 0. */
  function LastCode(os: seq<CoapOption>): byte {
    if os == [] then 0 else os[|os| - 1].code
  }

  // ------------------------------------------------------------------ options as a map

  function AsMap(os: seq<CoapOption>): map<byte, seq<byte>> {
    if os == [] then map[] else AsMap(os[1..])[os[0].code := os[0].data]
  }

  /** The map that the same settings build; a later one with the same code wins. */
  function SetAll(m: map<byte, seq<byte>>, more: seq<CoapOption>): map<byte, seq<byte>>
    decreases |more|
  {
    if more == [] then m else SetAll(m[more[0].code := more[0].data], more[1..])
  }

  lemma {:induction false} CodesAbove(os: seq<CoapOption>, floor: int)
    requires Ascending(os, floor)
    ensures forall c :: c in AsMap(os) ==> floor < c
  {
    if os != [] {
      CodesAbove(os[1..], os[0].code);
    }
  }

  lemma {:induction false} PutKeeps(os: seq<CoapOption>, o: CoapOption, floor: int)
    requires Ascending(os, floor) && floor < o.code
    ensures Ascending(Put(os, o), floor)
    ensures AsMap(Put(os, o)) == AsMap(os)[o.code := o.data]
  {
    if os != [] {
      CodesAbove(os[1..], os[0].code);
      if o.code > os[0].code {
        PutKeeps(os[1..], o, os[0].code);
      }
    }
  }

  lemma {:induction false} UnsetKeeps(os: seq<CoapOption>, code: byte, floor: int)
    requires Ascending(os, floor)
    ensures Ascending(Unset(os, code), floor)
    ensures AsMap(Unset(os, code)) == AsMap(os) - {code}
    ensures |Unset(os, code)| == if code in AsMap(os) then |os| - 1 else |os|
  {
    if os != [] {
      CodesAbove(os[1..], os[0].code);
      if os[0].code == code {
        Weaken(os[1..], os[0].code, floor);
      } else {
        UnsetKeeps(os[1..], code, os[0].code);
      }
    }
  }

  lemma Weaken(os: seq<CoapOption>, floor: int, lower: int)
    requires Ascending(os, floor) && lower <= floor
    ensures Ascending(os, lower)
  {
  }

  /** The list has as many entries as the map. */
  lemma {:induction false} MapSize(os: seq<CoapOption>, floor: int)
    requires Ascending(os, floor)
    ensures |AsMap(os)| == |os|
  {
    if os != [] {
      CodesAbove(os[1..], os[0].code);
      MapSize(os[1..], os[0].code);
    }
  }

  /** A sorted list is determined by its map. */
  lemma {:induction false} SortedIsUnique(a: seq<CoapOption>, b: seq<CoapOption>, floor: int)
    requires Ascending(a, floor) && Ascending(b, floor) && AsMap(a) == AsMap(b)
    ensures a == b
  {
    MapSize(a, floor);
    MapSize(b, floor);
    if a != [] {
      CodesAbove(a[1..], a[0].code);
      CodesAbove(b[1..], b[0].code);
      assert a[0].code in AsMap(b) && b[0].code in AsMap(a);
      assert a[0] == b[0];
      assert AsMap(a[1..]) == AsMap(a) - {a[0].code};
      assert AsMap(b[1..]) == AsMap(b) - {b[0].code};
      SortedIsUnique(a[1..], b[1..], a[0].code);
    }
  }

  lemma {:induction false} PutAllIsSetAll(os: seq<CoapOption>, more: seq<CoapOption>)
    requires Ascending(os, -1)
    ensures Ascending(PutAll(os, more), -1)
    ensures AsMap(PutAll(os, more)) == SetAll(AsMap(os), more)
    decreases |more|
  {
    if more != [] {
      PutKeeps(os, more[0], -1);
      PutAllIsSetAll(Put(os, more[0]), more[1..]);
    }
  }

  lemma {:induction false} PutValid(os: seq<CoapOption>, o: CoapOption)
    requires ValidOptions(os) && |o.data| <= MAX_OPTION
    ensures ValidOptions(Put(os, o)) && |Put(os, o)| <= |os| + 1
  {
    if os != [] {
      PutValid(os[1..], o);
    }
  }

  lemma {:induction false} UnsetValid(os: seq<CoapOption>, code: byte)
    requires ValidOptions(os)
    ensures ValidOptions(Unset(os, code))
  {
    if os != [] {
      UnsetValid(os[1..], code);
    }
  }

  lemma {:induction false} PutSize(os: seq<CoapOption>, o: CoapOption, floor: int)
    requires Ascending(os, floor) && floor < o.code
    ensures |Put(os, o)| == |Unset(os, o.code)| + 1 <= |os| + 1
  {
    if os != [] {
      if os[0].code < o.code {
        PutSize(os[1..], o, os[0].code);
      } else if os[0].code > o.code {
        UnsetKeeps(os, o.code, floor);
        CodesAbove(os[1..], os[0].code);
      }
    }
  }

  lemma {:induction false} PutAllSnoc(os: seq<CoapOption>, done: seq<CoapOption>, o: CoapOption)
    ensures PutAll(os, done + [o]) == Put(PutAll(os, done), o)
    decreases |done|
  {
    if done == [] {
      assert PutAll(Put(os, o), []) == Put(os, o);
      assert (done + [o])[1..] == [];
    } else {
      assert (done + [o])[1..] == done[1..] + [o];
      PutAllSnoc(Put(os, done[0]), done[1..], o);
    }
  }
}
