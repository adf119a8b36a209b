/** What survives a trip through a packet, and what any accepted packet looks like. */
module PduTheorems {
  import opened Basics
  import opened PduSpec

  /** Codes never fall, and rise by at most 15 at a time. */
  predicate Climbs(os: seq<CoapOption>, code: nat) {
    os == [] || (code <= os[0].code <= code + 15 && Climbs(os[1..], os[0].code))
  }

  predicate NoneOfLength15(os: seq<CoapOption>) {
    forall o :: o in os ==> |o.data| != 15
  }

  /** Section 3.2 gives every length from 15 on an extension byte. */
  function ReadSize(os: seq<CoapOption>): nat {
    if os == [] then 0 else (if |os[0].data| >= 15 then 2 else 1) + |os[0].data| + ReadSize(os[1..])
  }

  /** The options the packet `s` carries, in the order they come. */
  function Carried(s: seq<byte>): seq<CoapOption>
    requires Read(s).Some?
  {
    ParseOptions(s[4..], 0, s[0] % 16).value.options
  }

  // ------------------------------------------------------------------ reading

  lemma OptionShape(s: seq<byte>, code: nat)
    requires code + 15 < 0x100 && ParseOption(s, code).Some?
    ensures var one := ParseOption(s, code).value;
      && code <= one.option.code <= code + 15 && |one.option.data| <= MAX_OPTION
      && |s| == ReadSize([one.option]) + |one.rest|
  {
  }

  lemma {:induction false} ParsedShape(s: seq<byte>, code: nat, count: nat)
    requires code + 15 * count < 0x100 && ParseOptions(s, code, count).Some?
    ensures var p := ParseOptions(s, code, count).value;
      && |p.options| == count && Climbs(p.options, code) && ValidOptions(p.options)
      && |s| == ReadSize(p.options) + |p.rest|
    decreases count
  {
    hide ParseOption, Climbs, ValidOptions, ReadSize;
    if count == 0 {
      NoShape(code);
    } else {
      OptionShape(s, code);
      var one := ParseOption(s, code).value;
      ParsedShape(one.rest, one.option.code, count - 1);
      ConsShape(one.option, ParseOptions(one.rest, one.option.code, count - 1).value.options, code);
    }
  }

  lemma NoShape(code: nat)
    ensures Climbs([], code) && ValidOptions([]) && ReadSize([]) == 0
  {
  }

  lemma ConsShape(o: CoapOption, rest: seq<CoapOption>, code: nat)
    requires code <= o.code <= code + 15 && |o.data| <= MAX_OPTION && Climbs(rest, o.code) && ValidOptions(rest)
    ensures Climbs([o] + rest, code) && ValidOptions([o] + rest)
    ensures ReadSize([o] + rest) == ReadSize([o]) + ReadSize(rest)
  {
    assert ([o] + rest)[1..] == rest;
  }

  lemma Within(memory: seq<byte>, at: nat, limit: nat)
    requires at <= limit <= |memory|
    ensures var s := memory[at..limit]; |s| == limit - at && forall i :: 0 <= i < |s| ==> s[i] == memory[at + i]
  {
  }

  lemma Inside(memory: seq<byte>, at: nat, limit: nat, skip: nat, n: nat)
    requires at + skip + n <= limit <= |memory|
    ensures var body := memory[at..limit][skip..];
      |body| >= n && body[..n] == memory[at + skip..at + skip + n] && body[n..] == memory[at + skip + n..limit]
  {
    var body := memory[at + skip..limit];
    assert memory[at..limit][skip..] == body;
    assert body[..n] == memory[at + skip..at + skip + n];
    assert body[n..] == memory[at + skip + n..limit];
  }

  lemma OptionReached(memory: seq<byte>, limit: nat, at: nat, code: nat)
    requires at <= limit <= |memory| && code + 15 < 0x100
    ensures var next := OptionReach(memory, limit, at);
      var found := ParseOption(memory[at..limit], code);
      && (found.Some? <==> next <= limit)
      && (found.Some? ==> found.value.rest == memory[next..limit] && code <= found.value.option.code <= code + 15)
  {
    Within(memory, at, limit);
    var s := memory[at..limit];
    if OptionReach(memory, limit, at) <= limit {
      if s[0] % 16 == 15 {
        Inside(memory, at, limit, 2, 15 + s[1] as int);
      } else {
        Inside(memory, at, limit, 1, s[0] % 16);
      }
    }
  }

  lemma {:induction false} OptionsReached(memory: seq<byte>, limit: nat, at: nat, code: nat, count: nat)
    requires at <= limit <= |memory| && code + 15 * count < 0x100
    ensures ParseOptions(memory[at..limit], code, count).Some? <==> ReachFrom(memory, limit, at, count) <= limit
    decreases count
  {
    hide ParseOption, OptionReach;
    if count > 0 {
      OptionReached(memory, limit, at, code);
      var next := OptionReach(memory, limit, at);
      if next <= limit {
        OptionsReached(memory, limit, next, ParseOption(memory[at..limit], code).value.option.code, count - 1);
      }
    }
  }

  /** A packet of a legal size is accepted just when its options take the reader no further than its end; before it
    * turns one down, it may have looked at 270 bytes behind it.
    */
  lemma ReaderStaysInside(memory: seq<byte>, limit: nat)
    requires limit <= |memory|
    ensures Read(memory[..limit]).Some? <==> HEADER_STRUCT <= limit <= MAX_PACKET && Reach(memory, limit) <= limit
    ensures Reach(memory, limit) <= limit + MAX_OPTION
  {
    hide ParseOptions, ReachFrom, PutAll;
    if HEADER_STRUCT <= limit <= MAX_PACKET {
      var packet := memory[..limit];
      assert packet[4..] == memory[4..limit] && packet[0] == memory[0];
      OptionsReached(memory, limit, 4, 0, memory[0] % 16);
    }
  }

  /** Six bytes with one option are enough to go that far. */
  lemma ReaderLooksFurthest(rest: seq<byte>)
    ensures Reach([1, 0, 0, 0, 15, 255] + rest, 6) == 6 + MAX_OPTION
  {
    var memory := [1, 0, 0, 0, 15, 255] + rest;
    assert memory[0] == 1 && memory[4] == 15 && memory[5] == 255;
    assert OptionReach(memory, 6, 4) == 6 + MAX_OPTION;
  }

  /** Adding an option past the end. */
  lemma {:induction false} Appended(os: seq<CoapOption>, o: CoapOption, floor: int, from: nat)
    requires Ascending(os, floor) && Climbs(os, from)
    requires if os == [] then floor < o.code && from <= o.code <= from + 15
             else LastCode(os) < o.code <= LastCode(os) + 15
    ensures Ascending(os + [o], floor) && Climbs(os + [o], from)
    ensures ReadSize(os + [o]) == ReadSize(os) + ReadSize([o])
  {
    if os == [] {
      assert os + [o] == [o];
    } else {
      assert (os + [o])[1..] == os[1..] + [o];
      Appended(os[1..], o, os[0].code, os[0].code);
    }
  }

  /** A list without its last option. */
  lemma {:induction false} LastTaken(os: seq<CoapOption>, floor: int, from: nat)
    requires os != [] && Ascending(os, floor) && Climbs(os, from)
    ensures var init := os[..|os| - 1];
      && Ascending(init, floor) && Climbs(init, from) && ReadSize(init) < ReadSize(os)
      && (if init == [] then floor < LastCode(os) && from <= LastCode(os) <= from + 15
          else LastCode(init) < LastCode(os) <= LastCode(init) + 15)
  {
    if |os| > 1 {
      assert os[..|os| - 1][1..] == os[1..][..|os| - 2];
      LastTaken(os[1..], os[0].code, os[0].code);
    }
  }

  lemma {:induction false} PutForm(os: seq<CoapOption>, o: CoapOption, floor: int)
    requires Ascending(os, floor) && (os != [] ==> LastCode(os) <= o.code)
    ensures Put(os, o) == if os != [] && LastCode(os) == o.code then os[..|os| - 1] + [o] else os + [o]
  {
    if |os| == 1 {
      assert Put(os[1..], o) == [o];
    } else if |os| > 1 {
      EndsAbove(os[1..], os[0].code);
      PutForm(os[1..], o, os[0].code);
      assert os[..|os| - 1] == [os[0]] + os[1..][..|os| - 2];
    }
  }

  /** Setting an option at or past the end. */
  lemma PutAtEnd(os: seq<CoapOption>, o: CoapOption)
    requires Ascending(os, -1) && Climbs(os, 0)
    requires LastCode(os) <= o.code <= LastCode(os) + 15
    ensures Put(os, o) == if os != [] && LastCode(os) == o.code then os[..|os| - 1] + [o] else os + [o]
    ensures Ascending(Put(os, o), -1) && Climbs(Put(os, o), 0) && LastCode(Put(os, o)) == o.code
    ensures ReadSize(Put(os, o)) + (|os| + 1 - |Put(os, o)|) <= ReadSize(os) + ReadSize([o])
  {
    hide Put, Ascending, Climbs, ReadSize;
    PutForm(os, o, -1);
    if os != [] && LastCode(os) == o.code {
      LastTaken(os, -1, 0);
      Appended(os[..|os| - 1], o, -1, 0);
    } else {
      Appended(os, o, -1, 0);
    }
  }

  lemma {:induction false} EndsAbove(os: seq<CoapOption>, floor: int)
    requires Ascending(os, floor) && os != []
    ensures LastCode(os) > floor
  {
    if |os| > 1 {
      EndsAbove(os[1..], os[0].code);
    }
  }

  /** Setting a whole climbing list of options, after `os`. */
  lemma {:induction false} PutAllAtEnd(os: seq<CoapOption>, more: seq<CoapOption>)
    requires Ascending(os, -1) && Climbs(os, 0) && ValidOptions(os) && ValidOptions(more)
    requires Climbs(more, LastCode(os))
    ensures var all := PutAll(os, more);
      && Ascending(all, -1) && Climbs(all, 0) && ValidOptions(all)
      && ReadSize(all) + (|os| + |more| - |all|) <= ReadSize(os) + ReadSize(more)
      && |all| <= |os| + |more|
      && (|all| == |os| + |more| ==> all == os + more)
    decreases |more|
  {
    hide Put, ValidOptions, Ascending;
    if more == [] {
      assert os + more == os;
    } else {
      var o, rest := more[0], more[1..];
      FirstOption(more);
      PutAtEnd(os, o);
      PutValid(os, o);
      PutAllAtEnd(Put(os, o), rest);
      Associate(os, [o], rest);
    }
  }

  lemma FirstOption(os: seq<CoapOption>)
    requires os != [] && ValidOptions(os)
    ensures ReadSize(os) == ReadSize([os[0]]) + ReadSize(os[1..]) && os == [os[0]] + os[1..]
    ensures ValidOptions(os[1..]) && |os[0].data| <= MAX_OPTION && -1 < os[0].code
  {
  }

  /** What an accepted packet of any bytes is like: its size is accounted for exactly, its options are those
    * it carries with the last of equal codes winning, sorted, at most 15, and no code more than 15 above
    * the one before.
    */
  lemma AcceptedPacket(s: seq<byte>)
    requires Read(s).Some?
    ensures var m := Read(s).value;
      && |s| == 4 + ReadSize(Carried(s)) + |m.payload| && |Carried(s)| == s[0] % 16
      && AsMap(m.options) == SetAll(map[], Carried(s))
      && ValidMessage(m) && Climbs(m.options, 0)
      && |m.options| <= |Carried(s)| && ReadSize(m.options) + (|Carried(s)| - |m.options|) <= ReadSize(Carried(s))
      && (|m.options| == |Carried(s)| ==> m.options == Carried(s))
      && m.version < 4 && m.kind < 4
  {
    ParsedShape(s[4..], 0, s[0] % 16);
    PutAllAtEnd([], Carried(s));
    assert [] + Carried(s) == Carried(s);
    PutAllIsSetAll([], Carried(s));
  }

  // ------------------------------------------------------------------ the round trip

  lemma {:induction false} EncodedSize(os: seq<CoapOption>, previous: byte)
    requires ValidOptions(os)
    ensures |EncodeOptions(os, previous)| == WriteSize(os)
  {
    if os != [] {
      EncodedSize(os[1..], os[0].code);
    }
  }

  lemma {:induction false} SizesDiffer(os: seq<CoapOption>)
    ensures WriteSize(os) <= ReadSize(os)
    ensures WriteSize(os) == ReadSize(os) <==> NoneOfLength15(os)
  {
    if os != [] {
      SizesDiffer(os[1..]);
      assert os == [os[0]] + os[1..];
    }
  }

  lemma {:induction false} ParseEncoded(os: seq<CoapOption>, previous: byte, rest: seq<byte>)
    requires ValidOptions(os) && Climbs(os, previous) && NoneOfLength15(os) && previous + 15 * |os| < 0x100
    ensures ParseOptions(EncodeOptions(os, previous) + rest, previous, |os|) == Some(Parsed(os, rest))
  {
    if os == [] {
      assert EncodeOptions(os, previous) == [];
      assert [] + rest == rest;
    } else {
      hide EncodeOption, EncodeOptions, ParseOption, ParseOptions, NoneOfLength15, ValidOptions;
      var tail := EncodeOptions(os[1..], os[0].code) + rest;
      FirstFine(os);
      EncodeFirst(os, previous, rest);
      ParseEncodedOption(os[0], previous, tail);
      ParseFirst(EncodeOption(os[0], previous) + tail, previous, |os|, One(os[0], tail));
      ParseEncoded(os[1..], os[0].code, rest);
      assert os == [os[0]] + os[1..];
    }
  }

  lemma EncodeFirst(os: seq<CoapOption>, previous: byte, rest: seq<byte>)
    requires os != [] && ValidOptions(os) && |os[0].data| <= MAX_OPTION && ValidOptions(os[1..])
    ensures EncodeOptions(os, previous) + rest
        == EncodeOption(os[0], previous) + (EncodeOptions(os[1..], os[0].code) + rest)
  {
    hide EncodeOption;
    Associate(EncodeOption(os[0], previous), EncodeOptions(os[1..], os[0].code), rest);
  }

  lemma ParseFirst(s: seq<byte>, code: byte, count: nat, one: One)
    requires count > 0 && code + 15 * count < 0x100 && ParseOption(s, code) == Some(one) && one.option.code <= code + 15
    ensures ParseOptions(s, code, count) == Before(one.option, ParseOptions(one.rest, one.option.code, count - 1))
  {
    hide ParseOption;
  }

  lemma FirstFine(os: seq<CoapOption>)
    requires os != [] && ValidOptions(os) && NoneOfLength15(os)
    ensures |os[0].data| <= MAX_OPTION && |os[0].data| != 15 && ValidOptions(os[1..]) && NoneOfLength15(os[1..])
  {
    assert os[0] in os;
  }

  lemma ParseEncodedOption(o: CoapOption, previous: byte, tail: seq<byte>)
    requires |o.data| <= MAX_OPTION && |o.data| != 15 && previous <= o.code <= previous + 15 && previous + 15 < 0x100
    ensures ParseOption(EncodeOption(o, previous) + tail, previous) == Some(One(o, tail))
  {
    var s := EncodeOption(o, previous) + tail;
    var delta := o.code - previous;
    assert delta % 16 == delta;
    SplitAt(o.data, tail);
    if |o.data| > 15 {
      assert s[0] == 16 * delta + 15 && s[1] == |o.data| - 15;
      assert s[2..] == o.data + tail;
      Nibbles(delta, 15);
    } else {
      assert s[0] == 16 * delta + |o.data|;
      assert s[1..] == o.data + tail;
      Nibbles(delta, |o.data|);
    }
  }

  lemma SplitAt(a: seq<byte>, b: seq<byte>)
    ensures (a + b)[..|a|] == a && (a + b)[|a|..] == b
  {
  }

  lemma Nibbles(high: nat, low: nat)
    requires low < 16
    ensures (16 * high + low) / 16 == high && (16 * high + low) % 16 == low
  {
  }

  /** The conditions of the round trip. */
  predicate Exact(m: Message) {
    && m.version < 4 && m.kind < 4
    && |m.options| <= 15 && Climbs(m.options, 0) && NoneOfLength15(m.options)
    && HEADER_STRUCT <= Size(m) <= MAX_PACKET
  }

  /** Here `count` is what the option counter holds; four bits of it go into the packet. */
  predicate ComesBack(m: Message, count: byte)
    requires ValidMessage(m)
  {
    Fits(m) && Read(Encode(m, count)) == Some(m)
  }

  predicate Counted(m: Message, count: byte) {
    count % 16 == |m.options|
  }

  lemma FirstByteFields(version: byte, kind: byte, count: byte)
    ensures var b: int := FirstByte(version, kind, count);
      && b % 16 == count % 16 && b / 16 % 4 == kind % 4 && (kind < 4 ==> b / 64 == version % 4)
  {
  }

  lemma {:induction false} SmallFits(os: seq<CoapOption>, at: nat)
    requires at + WriteSize(os) <= MAX_PACKET
    ensures OptionsFit(os, at)
  {
    if os != [] {
      SmallFits(os[1..], at + Head(|os[0].data|) + |os[0].data|);
    }
  }

  lemma {:induction false} ExtentOfOptions(os: seq<CoapOption>, at: nat, payloadLen: nat)
    ensures var whole := at + WriteSize(os) + payloadLen;
      && ExtentFrom(os, at, payloadLen) <= whole
      && (if OptionsFit(os, at) && (payloadLen > 0 ==> at + WriteSize(os) <= MAX_PACKET)
          then ExtentFrom(os, at, payloadLen) == whole else ExtentFrom(os, at, payloadLen) > MAX_PACKET)
  {
    if os != [] && at + Head(|os[0].data|) <= MAX_PACKET {
      ExtentOfOptions(os[1..], at + Head(|os[0].data|) + |os[0].data|, payloadLen);
    }
  }

  /** The first byte of a packet, bit by bit: the two low bits of the version, then those of the type, and the low
    * half of the counter; of a type of more than two bits, two more fall on those of the version.
    */
  lemma FirstByteBits(version: byte, kind: byte, count: byte)
    ensures var b := FirstByte(version, kind, count) as int;
      && (b / 128 == 1 <==> version / 2 % 2 == 1 || kind / 8 % 2 == 1)
      && (b / 64 % 2 == 1 <==> version % 2 == 1 || kind / 4 % 2 == 1)
      && b / 16 % 4 == kind % 4 && b % 16 == count % 16
  {
    var v, k := version as int % 4, kind as int / 4 % 4;
    var top := Or(v, k);
    assert FirstByte(version, kind, count) == 64 * top + 16 * (kind as int % 4) + count as int % 16;
    hide Or, FirstByte;
    OrBits(v, k);
    TwoBits(version as int);
    TwoBits(kind as int / 4);
    assert kind as int / 4 / 2 == kind as int / 8;
    FourFields(top / 2, top % 2, kind as int % 4, count as int % 16);
  }

  lemma TwoBits(n: nat)
    ensures n % 4 / 2 == n / 2 % 2 && n % 4 % 2 == n % 2
  {
  }

  lemma OrBits(a: nat, b: nat)
    requires a < 4 && b < 4
    ensures Or(a, b) / 2 == 1 <==> a / 2 == 1 || b / 2 == 1
    ensures Or(a, b) % 2 == 1 <==> a % 2 == 1 || b % 2 == 1
  {
  }

  lemma FourFields(h: nat, l: nat, kind: nat, count: nat)
    requires h < 2 && l < 2 && kind < 4 && count < 16
    ensures var b := 64 * (2 * h + l) + 16 * kind + count;
      b / 128 == h && b / 64 % 2 == l && b / 16 % 4 == kind && b % 16 == count
  {
  }

  lemma FirstByteWhole(version: byte, kind: byte, count: byte)
    requires version < 4 && kind < 4
    ensures FirstByte(version, kind, count) == 64 * version as int + 16 * kind as int + count as int % 16
  {
  }

  /** The header and the ends of a packet. */
  lemma PacketLayout(m: Message, count: byte)
    requires ValidOptions(m.options)
    ensures var s := Encode(m, count);
      && |s| == 4 + WriteSize(m.options) + |m.payload|
      && s[0] == FirstByte(m.version, m.kind, count) && s[1] == m.code
      && s[2] as int + 256 * s[3] as int == m.id
      && s[4..4 + WriteSize(m.options)] == EncodeOptions(m.options, 0)
      && s[4 + WriteSize(m.options)..] == m.payload
  {
    hide EncodeOptions, FirstByte, WriteSize;
    EncodedSize(m.options, 0);
  }

  /** An option: the difference of the codes in the high half of a byte, the length in the low half, or 15 there and
    * the rest of the length in a second byte; then the value.
    */
  lemma OptionLayout(o: CoapOption, previous: byte)
    requires |o.data| <= 270
    ensures var e := EncodeOption(o, previous);
      && e[0] / 16 == (o.code - previous) % 16
      && (|o.data| <= 15 ==> e[0] % 16 == |o.data| && e[1..] == o.data)
      && (|o.data| > 15 ==> e[0] % 16 == 15 && 15 + e[1] as int == |o.data| && e[2..] == o.data)
  {
  }

  /** The same read back: what an option is in a packet. */
  lemma OptionIsRead(s: seq<byte>, code: nat)
    requires code + 15 < 256 && ParseOption(s, code).Some?
    ensures var one := ParseOption(s, code).value;
      && s != [] && one.option.code == code + s[0] / 16
      && (s[0] % 16 < 15 ==> |one.option.data| == s[0] % 16 && s[1..] == one.option.data + one.rest)
      && (s[0] % 16 == 15 ==> |s| > 1 && |one.option.data| == 15 + s[1] as int && s[2..] == one.option.data + one.rest)
  {
  }

  /** The longest value, the longest packet and the size of the header structure in memory. */
  lemma Sizes()
    ensures MAX_OPTION == 270 && MAX_PACKET == 1400 && HEADER_STRUCT == 6
  {
  }

  /** A head that does not fit is given up one byte behind the limit, unless the option before it ended further on. */
  lemma HeadGivenUp(o: CoapOption, at: nat)
    requires at + Head(|o.data|) > 1400
    ensures OptionExtent(o, at) == if at <= 1400 then 1401 else at
  {
  }

  /** The writer stays inside a buffer of the size it tests for just when the packet does: a message it accepts fills
    * its whole size, however far that goes, and one it turns down is turned down only beyond the end.
    */
  lemma WriterStaysInside(m: Message)
    ensures Extent(m) <= MAX_PACKET <==> Size(m) <= MAX_PACKET
    ensures Extent(m) <= Size(m)
    ensures if Fits(m) then Extent(m) == Size(m) else Extent(m) > MAX_PACKET
  {
    ExtentOfOptions(m.options, 4, |m.payload|);
    if Size(m) <= MAX_PACKET {
      SmallFits(m.options, 4);
    }
  }

  /** A full payload with no options before it passes every test, and runs four bytes over. */
  lemma FullPayloadOverruns(payload: seq<byte>)
    requires |payload| == MAX_PACKET
    ensures var m := Message(1, 0, 0, 0, [], payload);
      ValidMessage(m) && Fits(m) && Extent(m) == MAX_PACKET + 4
  {
    assert WriteSize([]) == 0;
  }

  lemma ReadEncoded(m: Message, count: byte)
    requires ValidOptions(m.options) && m.kind < 4
    ensures var s := Encode(m, count);
      && |s| == Size(m) && s[4..] == EncodeOptions(m.options, 0) + m.payload
      && s[0] % 16 == count % 16 && s[0] / 16 % 4 == m.kind && s[0] / 64 == m.version % 4
      && s[1] == m.code && s[2] as int + 0x100 * s[3] as int == m.id
  {
    hide EncodeOptions, FirstByte, WriteSize;
    EncodedSize(m.options, 0);
    FirstByteFields(m.version, m.kind, count);
    AfterFour(FirstByte(m.version, m.kind, count), m.code, m.id % 0x100, m.id / 0x100, EncodeOptions(m.options, 0),
              m.payload);
  }

  lemma AfterFour(a: byte, b: byte, c: byte, d: byte, x: seq<byte>, y: seq<byte>)
    ensures ([a, b, c, d] + x + y)[4..] == x + y
    ensures ([a, b, c, d] + x + y)[..4] == [a, b, c, d] && |[a, b, c, d] + x + y| == 4 + |x| + |y|
  {
  }

  lemma ExactComesBack(m: Message, count: byte)
    requires ValidMessage(m) && Exact(m) && Counted(m, count)
    ensures ComesBack(m, count)
  {
    hide Encode, EncodeOptions, ParseOptions, PutAll, Climbs, Ascending, WriteSize, OptionsFit, ValidOptions;
    ReadEncoded(m, count);
    SmallFits(m.options, 4);
    ParseEncoded(m.options, 0, m.payload);
    PutAllAscending(m.options);
  }

  lemma {:induction false} PutAllAscending(os: seq<CoapOption>)
    requires Ascending(os, -1) && Climbs(os, 0) && ValidOptions(os)
    ensures PutAll([], os) == os
  {
    PutAllAtEnd([], os);
    PutAllIsSetAll([], os);
    MapOfAll(map[], os, -1);
    MapSize(os, -1);
    MapSize(PutAll([], os), -1);
    assert [] + os == os;
  }

  /** Setting the options of an ascending list into a map. */
  lemma {:induction false} MapOfAll(m: map<byte, seq<byte>>, os: seq<CoapOption>, floor: int)
    requires Ascending(os, floor)
    ensures SetAll(m, os) == m + AsMap(os)
    decreases |os|
  {
    if os != [] {
      CodesAbove(os[1..], os[0].code);
      MapOfAll(m[os[0].code := os[0].data], os[1..], os[0].code);
    }
  }

  lemma ExactIsRead(m: Message)
    requires ValidMessage(m) && Exact(m)
    ensures Read(Encode(m, |m.options|)) == Some(m)
  {
    hide Encode, Read, Climbs, NoneOfLength15, Size;
    ExactComesBack(m, |m.options|);
  }

  lemma ComesBackExact(m: Message, count: byte)
    requires ValidMessage(m) && ComesBack(m, count)
    ensures Exact(m) && Counted(m, count)
  {
    hide Encode, EncodeOptions, ParseOptions, PutAll, SetAll, AsMap, Climbs, Ascending, WriteSize, ReadSize,
        OptionsFit, ValidOptions;
    AcceptedPacket(Encode(m, count));
    ReadEncoded(m, count);
    SizesDiffer(m.options);
  }

  /** A message comes back from its packet just when its fields fit their bits, it has at most 15 options with
    * codes no more than 15 apart, none of them is of length 15, its packet is of a legal size, and the low bits of
    * the counter say how many options there are.
    */
  lemma RoundTrip(m: Message, count: byte)
    requires ValidMessage(m)
    ensures ComesBack(m, count) <==> Exact(m) && Counted(m, count)
  {
    if Exact(m) && Counted(m, count) {
      ExactComesBack(m, count);
    }
    if ComesBack(m, count) {
      ComesBackExact(m, count);
    }
  }

  lemma AcceptedSize(s: seq<byte>)
    requires Read(s).Some?
    ensures |s| <= MAX_PACKET
  {
  }

  /** Writing out what was read from any packet and reading it again gives the same message, unless an option
    * of length 15 or a packet too short for the reader comes in the way.
    */
  lemma Reread(s: seq<byte>)
    requires Read(s).Some?
    ensures var m := Read(s).value;
      && ValidMessage(m) && |m.options| < 0x100
      && (ComesBack(m, |m.options|) <==> NoneOfLength15(m.options) && Size(m) >= HEADER_STRUCT)
  {
    hide Read, ComesBack, SetAll, AsMap, Climbs, Ascending, WriteSize, ReadSize, ValidOptions, NoneOfLength15;
    var m := Read(s).value;
    AcceptedPacket(s);
    AcceptedSize(s);
    SizesDiffer(m.options);
    RoundTrip(m, |m.options|);
  }
}
