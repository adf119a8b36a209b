/** CoAP messages in memory: a header, a linked list of options sorted by code, and a payload. */
module CoapPdu {
  import opened Basics
  import opened CoapList
  import opened PduSpec
  import opened PduTheorems

  /** `order_option_func`: the one thing the list needs to know about options. */
  function OrderOption(a: CoapOption, b: CoapOption): int {
    if a.code == b.code then 0 else if a.code < b.code then -1 else 1
  }

  /** The key an option is filed under and looked for by: the code, as a string. (The library copies on past
    * the code, up to the next zero byte in memory; only the first character is ever compared.)
    */
  function KeyOf(code: byte): seq<byte> {
    if code == 0 then [] else [code]
  }

  /** The list items that stand for `os`. */
  function Entries(os: seq<CoapOption>): (items: seq<Item<CoapOption>>)
    ensures |items| == |os|
    ensures forall i :: 0 <= i < |os| ==> items[i] == Item(KeyOf(os[i].code), os[i])
  {
    seq(|os|, i requires 0 <= i < |os| => Item(KeyOf(os[i].code), os[i]))
  }

  function Lookup(os: seq<CoapOption>, code: byte): Option<CoapOption> {
    if os == [] then None else if os[0].code == code then Some(os[0]) else Lookup(os[1..], code)
  }

  /** A key is a C string, and tells codes apart. */
  lemma KeysMatch(a: byte, b: byte)
    ensures KeyOf(a) <= [a] && (KeyOf(a) == [] <==> a == 0)
    ensures Match(KeyOf(a), KeyOf(b), 1) <==> a == b
  {
  }

  // ------------------------------------------------------------------ list operations on options

  lemma {:induction false} FirstWithCode(os: seq<CoapOption>, code: byte, from: nat)
    requires from <= |os|
    ensures var k := FirstMatch(Entries(os), KeyOf(code), 1, from);
      && (forall i :: from <= i < k ==> os[i].code != code)
      && (k < |os| ==> os[k].code == code)
    decreases |os| - from
  {
    hide Match, KeyOf;
    if from < |os| {
      KeysMatch(os[from].code, code);
      FirstWithCode(os, code, from + 1);
    }
  }

  lemma {:induction false} UnsetAt(os: seq<CoapOption>, code: byte, k: nat)
    requires k <= |os| && (forall i :: 0 <= i < k ==> os[i].code != code) && (k < |os| ==> os[k].code == code)
    ensures Unset(os, code) == if k < |os| then os[..k] + os[k + 1..] else os
    ensures Lookup(os, code) == if k < |os| then Some(os[k]) else None
  {
    if k > 0 {
      var rest := os[1..];
      assert forall i :: 0 <= i < |rest| ==> rest[i] == os[i + 1];
      UnsetAt(rest, code, k - 1);
      if k < |os| {
        assert os[..k] == [os[0]] + rest[..k - 1] && os[k + 1..] == rest[k..];
      }
    }
  }

  lemma DeletedIsUnset(os: seq<CoapOption>, code: byte)
    ensures Deleted(Entries(os), KeyOf(code), 1) == Entries(Unset(os, code))
    ensures Found(Entries(os), KeyOf(code), 1) == Lookup(os, code)
    ensures FirstMatch(Entries(os), KeyOf(code), 1, 0) < |os| <==> |Unset(os, code)| == |os| - 1
  {
    hide Unset, Lookup, FirstMatch, KeyOf;
    FirstWithCode(os, code, 0);
    UnsetAt(os, code, FirstMatch(Entries(os), KeyOf(code), 1, 0));
  }

  lemma {:induction false} PassStops(os: seq<CoapOption>, o: CoapOption, from: nat)
    requires from <= |os|
    ensures var k := Pass(Entries(os), o, true, OrderOption, from);
      && (forall i :: from <= i < k ==> os[i].code <= o.code)
      && (k < |os| ==> o.code < os[k].code)
    decreases |os| - from
  {
    if from < |os| && OrderOption(o, os[from]) >= 0 {
      PassStops(os, o, from + 1);
    }
  }

  lemma {:induction false} PutAt(os: seq<CoapOption>, o: CoapOption, k: nat)
    requires k <= |os| && (forall i :: 0 <= i < k ==> os[i].code < o.code) && (k < |os| ==> o.code < os[k].code)
    ensures Put(os, o) == os[..k] + [o] + os[k..]
  {
    if k > 0 {
      PutAt(os[1..], o, k - 1);
      assert os[..k] == [os[0]] + os[1..][..k - 1] && os[k..] == os[1..][k - 1..];
    }
  }

  lemma EntriesWith(os: seq<CoapOption>, o: CoapOption, k: nat)
    requires k <= |os|
    ensures Entries(os[..k] + [o] + os[k..]) == Entries(os)[..k] + [Item(KeyOf(o.code), o)] + Entries(os)[k..]
  {
  }

  lemma InsertedIsPut(os: seq<CoapOption>, o: CoapOption)
    requires forall i :: 0 <= i < |os| ==> os[i].code != o.code
    ensures Inserted(Entries(os), Item(KeyOf(o.code), o), true, OrderOption) == Entries(Put(os, o))
  {
    hide Put, Pass, KeyOf;
    if os != [] {
      PassStops(os, o, 1);
    }
    var k := Place(Entries(os), o, true, OrderOption);
    PutAt(os, o, k);
    EntriesWith(os, o, k);
  }

  lemma {:induction false} PutAfterUnset(os: seq<CoapOption>, o: CoapOption, floor: int)
    requires Ascending(os, floor) && floor < o.code
    ensures Put(Unset(os, o.code), o) == Put(os, o)
    ensures forall i :: 0 <= i < |Unset(os, o.code)| ==> Unset(os, o.code)[i].code != o.code
  {
    if os != [] {
      if os[0].code == o.code {
        AllAbove(os[1..], o.code);
      } else if os[0].code < o.code {
        PutAfterUnset(os[1..], o, os[0].code);
      } else {
        AllAbove(os[1..], os[0].code);
        UnsetAt(os, o.code, |os|);
      }
    }
  }

  lemma {:induction false} AllAbove(os: seq<CoapOption>, floor: int)
    requires Ascending(os, floor)
    ensures forall i :: 0 <= i < |os| ==> floor < os[i].code
  {
    if os != [] {
      AllAbove(os[1..], os[0].code);
    }
  }

  /** The option counter, a byte, after an option is taken out, which the counter only notices above zero. */
  function CountDown(count: byte, removed: bool): byte {
    if removed && count > 0 then count - 1 else count
  }

  function CountUp(count: byte): byte {
    (count + 1) % 0x100
  }

  /** What setting an option comes down to. */
  lemma PutReady(os: seq<CoapOption>, o: CoapOption, count: byte)
    requires Ascending(os, -1) && ValidOptions(os) && |o.data| <= MAX_OPTION
    ensures Ascending(Put(os, o), -1) && ValidOptions(Put(os, o)) && Put(Unset(os, o.code), o) == Put(os, o)
    ensures forall i :: 0 <= i < |Unset(os, o.code)| ==> Unset(os, o.code)[i].code != o.code
    ensures count == |os| && |Put(os, o)| < 0x100 ==>
      CountUp(CountDown(count, |Unset(os, o.code)| < |os|)) == |Put(os, o)|
  {
    PutAfterUnset(os, o, -1);
    PutKeeps(os, o, -1);
    PutValid(os, o);
    if count == |os| && |Put(os, o)| < 0x100 {
      CountKept(os, o, count);
    }
  }

  lemma CountKept(os: seq<CoapOption>, o: CoapOption, count: byte)
    requires Ascending(os, -1) && count == |os| && |Put(os, o)| < 0x100
    ensures CountUp(CountDown(count, |Unset(os, o.code)| < |os|)) == |Put(os, o)|
  {
    PutSize(os, o, -1);
    UnsetKeeps(os, o.code, -1);
  }

  class Pdu {
    var version: byte
    var kind: byte
    var code: byte
    var optcnt: byte
    var id: uint16
    const opt_list: List<CoapOption>
    const payload: array<byte>
    var payload_len: nat
    var addr: int
    var timestamp: int
    /** What the list holds. */
    ghost var options: seq<CoapOption>

    ghost predicate Valid()
      reads this, opt_list, opt_list.nodes
    {
      && Filed() && Ascending(options, -1) && ValidOptions(options)
      && payload.Length == MAX_PACKET && payload_len <= MAX_PACKET
    }

    ghost predicate Filed()
      reads this`options, opt_list, opt_list.nodes
    {
      && opt_list.Valid() && opt_list.Contents() == Entries(options)
      && opt_list.ordered && opt_list.order == OrderOption
    }

    ghost function Image(): Message
      requires payload_len <= payload.Length
      reads this, payload
    {
      Message(version, kind, code, id, options, payload[..payload_len])
    }

    /** `coap_pdu_create` */
    constructor (now: int)
      ensures Valid() && options == [] && optcnt == 0
      ensures fresh(opt_list) && fresh(opt_list.nodes) && fresh(payload)
      ensures Image() == Message(0, 0, 0, 0, [], []) && payload[..] == seq(MAX_PACKET, _ => 0) && timestamp == now
    {
      version, kind, code, optcnt, id := 0, 0, 0, 0, 0;
      opt_list := new List(true, OrderOption);
      payload := new byte[MAX_PACKET](_ => 0);
      payload_len, addr, timestamp := 0, 0, now;
      options := [];
    }

    /** `coap_pdu_option_unset` */
    method OptionUnset(code: byte) returns (ok: bool)
      requires Valid()
      modifies this`options, this`optcnt, opt_list, opt_list.nodes
      ensures Valid() && options == Unset(old(options), code)
      ensures ok == (|options| < |old(options)|) && optcnt == CountDown(old(optcnt), ok)
      ensures forall i :: 0 <= i < |opt_list.nodes| ==> opt_list.nodes[i] in old(opt_list.nodes)
    {
      hide Filed, Unset, Ascending, ValidOptions;
      UnsetKeeps(options, code, -1);
      UnsetValid(options, code);
      ok := Take(code);
      if !ok {
        return;
      }
      if optcnt > 0 {
        optcnt := optcnt - 1;
      }
    }

    method Take(code: byte) returns (found: bool)
      requires Filed()
      modifies this`options, opt_list, opt_list.nodes
      ensures Filed() && options == Unset(old(options), code) && found == (|options| < |old(options)|)
      ensures forall i :: 0 <= i < |opt_list.nodes| ==> opt_list.nodes[i] in old(opt_list.nodes)
    {
      hide List.Valid, Skipping, Entries, Unset, FirstMatch, Deleted;
      DeletedIsUnset(options, code);
      found := opt_list.Delete(KeyOf(code), 1);
      options := Unset(options, code);
    }

    /** `coap_pdu_option_insert` */
    method OptionInsert(code: byte, value: seq<byte>)
      requires Valid() && |value| <= MAX_OPTION
      modifies this`options, this`optcnt, opt_list, opt_list.nodes
      ensures Valid() && options == Put(old(options), CoapOption(code, value))
      ensures optcnt == CountUp(CountDown(old(optcnt), |Unset(old(options), code)| < |old(options)|))
      ensures old(optcnt) == |old(options)| && |options| < 0x100 ==> optcnt == |options|
      ensures forall i :: 0 <= i < |opt_list.nodes| ==>
          opt_list.nodes[i] in old(opt_list.nodes) || fresh(opt_list.nodes[i])
    {
      hide Filed, Unset, Put, Ascending, ValidOptions, CountUp, CountDown;
      var opt := CoapOption(code, value);
      PutReady(options, opt, optcnt);
      var _ := OptionUnset(code);
      Place(opt);
      optcnt := CountUp(optcnt);
    }

    method Place(opt: CoapOption)
      requires Filed() && forall i :: 0 <= i < |options| ==> options[i].code != opt.code
      modifies this`options, opt_list, opt_list.nodes
      ensures Filed() && options == Put(old(options), opt)
      ensures forall i :: 0 <= i < |opt_list.nodes| ==>
          opt_list.nodes[i] in old(opt_list.nodes) || fresh(opt_list.nodes[i])
    {
      hide List.Valid, Entries, Inserted, Put;
      InsertedIsPut(options, opt);
      opt_list.Insert(KeyOf(opt.code), opt);
      options := Put(options, opt);
    }

    /** `coap_pdu_option_get` */
    method OptionGet(code: byte) returns (r: Option<CoapOption>)
      requires Valid()
      ensures r == Lookup(options, code)
    {
      DeletedIsUnset(options, code);
      r := opt_list.Get(KeyOf(code), 1);
    }

    /** `coap_pdu_clean` */
    method Clean()
      requires Valid()
      modifies this, opt_list, opt_list.nodes, payload
      ensures Valid() && Image() == Message(0, 0, 0, 0, [], []) && optcnt == 0
      ensures payload[..] == seq(MAX_PACKET, _ => 0)
      ensures opt_list.nodes == [] && addr == old(addr) && timestamp == old(timestamp)
    {
      hide List.Valid, Entries;
      CleanOptions();
      version, kind, code, optcnt, id := 0, 0, 0, 0, 0;
      forall i | 0 <= i < payload.Length {
        payload[i] := 0;
      }
      payload_len := 0;
    }

    /** Its loop, which deletes from the list it is going through. */
    method CleanOptions()
      requires Filed()
      modifies this`options, opt_list, opt_list.nodes
      ensures Filed() && options == [] && opt_list.nodes == []
    {
      hide List.Valid, List.Iterating, Entries;
      var more := opt_list.First();
      while more
        invariant Filed() && more == (options != [])
        invariant more ==> opt_list.Iterating() && opt_list.position == 1 && opt_list.current == opt_list.nodes[0]
        invariant forall i :: 0 <= i < |opt_list.nodes| ==> opt_list.nodes[i] in old(opt_list.nodes)
        decreases |options|
      {
        DeleteCurrent();
        more := opt_list.Next();
      }
    }

    method DeleteCurrent()
      requires Filed() && options != []
      requires opt_list.Iterating() && opt_list.position == 1 && opt_list.current == opt_list.nodes[0]
      modifies this`options, opt_list`first, opt_list`nodes, opt_list`position, opt_list.nodes
      ensures Filed() && options == old(options)[1..] && opt_list.Iterating() && opt_list.position == 0
      ensures forall i :: 0 <= i < |opt_list.nodes| ==> opt_list.nodes[i] in old(opt_list.nodes)
    {
      hide List.Valid, List.Iterating, Skipping, Entries, FirstMatch, Deleted;
      FirstGoes(options);
      var opt := opt_list.This().data;
      var _ := opt_list.Delete(KeyOf(opt.code), 1);
      options := options[1..];
    }

    // ---------------------------------------------------------------- writing a packet

    /** What `coap_pdu_packet_write` has done when it has reached `at` and has the options `rest` to go. */
    ghost predicate Ahead(written: seq<byte>, rest: seq<CoapOption>, previous: byte)
      requires payload_len <= payload.Length && ValidOptions(options) && ValidOptions(rest)
      reads this, payload
    {
      var at := |written|;
      && at + WriteSize(rest) + payload_len == Size(Image())
      && Encode(Image(), optcnt) == written + EncodeOptions(rest, previous) + payload[..payload_len]
      && (Fits(Image()) <==> OptionsFit(rest, at) && (payload_len > 0 ==> at + WriteSize(rest) <= MAX_PACKET))
      && Extent(Image()) == ExtentFrom(rest, at, payload_len)
    }

    /** `coap_pdu_packet_write`, into a buffer with room for what it fills of it. */
    method PacketWrite(buffer: array<byte>) returns (ok: bool, packet_len: nat)
      requires Valid() && buffer != payload && Extent(Image()) <= buffer.Length
      modifies buffer, opt_list`current, opt_list`upcoming, opt_list`position
      ensures Valid()
      ensures ok == Fits(Image())
      ensures ok ==> packet_len == Size(Image()) <= buffer.Length && buffer[..packet_len] == Encode(Image(), optcnt)
      ensures var e := old(Extent(Image())); buffer[e..] == old(buffer[e..])
    {
      hide Encode, EncodeOptions, Header, Filed, Ascending, ValidOptions, OptionsFit, Ahead, Size, Image, Fits,
          LastCode, Extent;
      packet_len := 0;
      StartAhead();
      WriteHeader(buffer);
      ghost var headed := buffer[..];
      var p;
      ok, p := WriteOptions(buffer);
      Suffixes(old(buffer[..]), headed, 4, Extent(Image()));
      if !ok {
        return;
      }
      NoneAhead(buffer[..p]);
      Suffixes(old(buffer[..]), headed, 4, p);
      ghost var optioned := buffer[..];
      ok := WritePayload(buffer, p);
      if ok {
        packet_len := p + payload_len;
        Suffixes(old(buffer[..]), optioned, p, packet_len);
      }
    }

    method WriteHeader(buffer: array<byte>)
      requires buffer.Length >= 4
      modifies buffer
      ensures buffer[..4] == Header(version, kind, optcnt, code, id) && buffer[4..] == old(buffer[4..])
    {
      hide FirstByte;
      buffer[0] := FirstByte(version, kind, optcnt);
      buffer[1] := code;
      buffer[2] := id % 0x100;
      buffer[3] := id / 0x100;
    }

    method WritePayload(buffer: array<byte>, p: nat) returns (ok: bool)
      requires payload_len <= payload.Length && ExtentFrom([], p, payload_len) <= buffer.Length && buffer != payload
      modifies buffer
      ensures ok == (payload_len > 0 ==> p <= MAX_PACKET) && (!ok ==> buffer[..] == old(buffer[..]))
      ensures ok ==> buffer[..p + payload_len] == old(buffer[..p]) + payload[..payload_len]
      ensures ok ==> buffer[p + payload_len..] == old(buffer[p + payload_len..])
    {
      if payload_len > 0 {
        if p > MAX_PACKET {
          return false;
        }
        Copy(buffer, p, payload[..payload_len]);
      }
      ok := true;
    }

    lemma StartAhead()
      requires Valid()
      ensures Ahead(Header(version, kind, optcnt, code, id), options, 0)
    {
    }

    lemma NoneAhead(written: seq<byte>)
      requires Valid() && Ahead(written, [], LastCode(options))
      ensures Encode(Image(), optcnt) == written + payload[..payload_len] && Size(Image()) == |written| + payload_len
      ensures Extent(Image()) == if |written| <= MAX_PACKET then |written| + payload_len else |written|
      ensures Fits(Image()) <==> (payload_len > 0 ==> |written| <= MAX_PACKET)
    {
      assert EncodeOptions([], LastCode(options)) == [];
      assert written + [] == written;
    }

    lemma OneAhead(written: seq<byte>, rest: seq<CoapOption>, previous: byte)
      requires Valid() && rest != [] && ValidOptions(rest) && Ahead(written, rest, previous)
      ensures |rest[0].data| <= MAX_OPTION && ValidOptions(rest[1..])
      ensures var at := |written| + Head(|rest[0].data|);
        && OptionExtent(rest[0], |written|) <= Extent(Image())
        && (if at <= MAX_PACKET then Ahead(written + EncodeOption(rest[0], previous), rest[1..], rest[0].code)
            else !Fits(Image()) && Extent(Image()) == OptionExtent(rest[0], |written|))
    {
      hide Encode, Fits, Filed, Ascending;
      assert rest[0] in rest;
      assert |EncodeOption(rest[0], previous)| == Head(|rest[0].data|) + |rest[0].data|;
      Associate(written, EncodeOption(rest[0], previous), EncodeOptions(rest[1..], rest[0].code));
    }

    /** The iterator is at option `k`, or past the end. */
    ghost predicate Visiting(k: nat, more: bool)
      reads this, opt_list
    {
      && k <= |options| && more == (k < |options|)
      && (more ==> |opt_list.nodes| == |options| && opt_list.Iterating() && opt_list.position == k + 1 &&
                   opt_list.current == opt_list.nodes[k] && opt_list.nodes[k].data == options[k])
    }

    method FirstOption() returns (more: bool)
      requires Filed()
      modifies opt_list`current, opt_list`upcoming, opt_list`position
      ensures Filed() && Visiting(0, more)
    {
      more := opt_list.First();
      if more {
        assert opt_list.Contents()[0] == Entries(options)[0];
      }
    }

    method NextOption(ghost k: nat) returns (more: bool)
      requires Filed() && Visiting(k, true)
      modifies opt_list`current, opt_list`upcoming, opt_list`position
      ensures Filed() && Visiting(k + 1, more)
    {
      more := opt_list.Next();
      if more {
        assert opt_list.Contents()[k + 1] == Entries(options)[k + 1];
      }
    }

    /** The loop over the options. */
    method WriteOptions(buffer: array<byte>) returns (ok: bool, p: nat)
      requires Valid() && buffer != payload && Extent(Image()) <= buffer.Length
      requires Ahead(buffer[..4], options, 0)
      modifies buffer, opt_list`current, opt_list`upcoming, opt_list`position
      ensures Valid() && 4 <= p <= buffer.Length
      ensures ok ==> Ahead(buffer[..p], [], LastCode(options)) && buffer[p..] == old(buffer[p..])
      ensures !ok ==> !Fits(Image()) && buffer[Extent(Image())..] == old(buffer[Extent(Image())..])
    {
      hide Filed, Ascending, ValidOptions, Ahead, Image, Size, Fits, EncodeOption, Head, LastCode, Extent, OptionExtent;
      p := 4;
      var opt: byte := 0;
      ghost var k := 0;
      Whole(options);
      var more := FirstOption();
      while more
        invariant Valid() && Visiting(k, more)
        invariant opt == LastCode(options[..k]) && ValidOptions(options[k..])
        invariant 4 <= p <= buffer.Length && Ahead(buffer[..p], options[k..], opt) && buffer[p..] == old(buffer[p..])
        decreases |options| - k
      {
        var option := opt_list.This().data;
        Taking(options, k);
        OneAhead(buffer[..p], options[k..], opt);
        ghost var before, at := buffer[..], p;
        ok, p := WriteOption(buffer, p, option, opt);
        Suffixes(old(buffer[..]), before, at, OptionExtent(option, at));
        if !ok {
          return;
        }
        opt := option.code;
        more := NextOption(k);
        k := k + 1;
      }
      ok := true;
      assert options[..k] == options && options[k..] == [];
    }

    // ---------------------------------------------------------------- reading a packet

    /** `coap_pdu_packet_read`. `memory` is what can be read from the start of the packet on: in a packet that is
      * turned down, the code may look past the end before it notices.
      */
    method PacketRead(memory: seq<byte>, packet_len: nat, now: int) returns (ok: bool)
      requires Valid() && packet_len <= |memory|
      requires Reach(memory, packet_len) <= |memory|
      modifies this, opt_list, opt_list.nodes, payload
      ensures Valid()
      ensures ok == Read(memory[..packet_len]).Some?
      ensures ok ==> Image() == Read(memory[..packet_len]).value && optcnt == |options|
      ensures ok ==> payload[payload_len..] == seq(MAX_PACKET - payload_len, _ => 0) && timestamp == now
      ensures packet_len > MAX_PACKET ==> Image() == old(Image()) && optcnt == old(optcnt)
      ensures addr == old(addr)
    {
      hide Filed, Ascending, ValidOptions, Read;
      if packet_len > MAX_PACKET {
        assert Read(memory[..packet_len]).None? by { WrongSize(memory[..packet_len]); }
        return false;
      }
      Clean();
      if packet_len < HEADER_STRUCT {
        assert Read(memory[..packet_len]).None? by { WrongSize(memory[..packet_len]); }
        return false;
      }
      ok := ReadMessage(memory, packet_len);
      if ok {
        timestamp := now;
      }
    }

    method ReadMessage(memory: seq<byte>, packet_len: nat) returns (ok: bool)
      requires Valid() && options == [] && payload[..] == seq(MAX_PACKET, _ => 0)
      requires HEADER_STRUCT <= packet_len <= MAX_PACKET && packet_len <= |memory|
      requires Reach(memory, packet_len) <= |memory|
      modifies this, opt_list, opt_list.nodes, payload
      ensures Valid()
      ensures ok == Read(memory[..packet_len]).Some?
      ensures ok ==> Image() == Read(memory[..packet_len]).value && optcnt == |options|
      ensures ok ==> payload[payload_len..] == seq(MAX_PACKET - payload_len, _ => 0)
      ensures addr == old(addr) && timestamp == old(timestamp)
    {
      hide Filed, Ascending, ValidOptions, ParseOptions, PutAll;
      PacketStart(memory, packet_len);
      version := memory[0] / 64;
      kind := memory[0] / 16 % 4;
      code := memory[1];
      id := memory[2] as int + 0x100 * memory[3] as int;
      optcnt := 0;
      var p;
      ok, p := ReadOptions(memory, packet_len, memory[0] % 16);
      if !ok || p > packet_len {
        return false;
      }
      ReadPayload(memory[p..packet_len]);
    }

    method ReadPayload(data: seq<byte>)
      requires payload.Length == MAX_PACKET && payload[..] == seq(MAX_PACKET, _ => 0) && |data| <= MAX_PACKET
      modifies this`payload_len, payload
      ensures payload_len == |data| && payload[..payload_len] == data
      ensures payload[payload_len..] == seq(MAX_PACKET - payload_len, _ => 0)
    {
      payload_len := |data|;
      Copy(payload, 0, data);
    }

    /** The loop over the options. */
    method ReadOptions(memory: seq<byte>, packet_len: nat, count: nat) returns (ok: bool, p: nat)
      requires Valid() && options == [] && optcnt == 0 && count < 16
      requires 4 <= packet_len <= |memory|
      requires ReachFrom(memory, packet_len, 4, count) <= |memory|
      modifies this`options, this`optcnt, opt_list, opt_list.nodes
      ensures Valid() && optcnt == |options|
      ensures var r := ParseOptions(memory[4..packet_len], 0, count);
        && (ok && p <= packet_len <==> r.Some?)
        && (r.Some? ==> options == PutAll([], r.value.options) && r.value.rest == memory[p..packet_len])
    {
      hide Filed, Ascending, ValidOptions, ParseOption, Put, PutAll, Unset;
      ghost var whole := ParseOptions(memory[4..packet_len], 0, count);
      ghost var done := [];
      ReadNothing(whole);
      p := 4;
      var opt_code: nat := 0;
      var cnt: nat := 0;
      while cnt < count
        invariant Valid() && cnt <= count && opt_code <= 15 * cnt
        invariant options == PutAll([], done) && optcnt == |options| <= cnt
        invariant forall i :: 0 <= i < |opt_list.nodes| ==>
            opt_list.nodes[i] in old(opt_list.nodes) || fresh(opt_list.nodes[i])
        invariant ReachFrom(memory, packet_len, p, count - cnt) <= |memory|
        invariant whole ==
                  if p > packet_len then None
                  else AfterAll(done, ParseOptions(memory[p..packet_len], opt_code, count - cnt))
      {
        if p > packet_len {
          return false, p;
        }
        var option;
        ghost var before := memory[p..packet_len];
        ok, option, p := ReadOption(memory, packet_len, p, opt_code);
        if !ok {
          return;
        }
        if p <= packet_len {
          AfterOne(done, option, ParseOptions(memory[p..packet_len], option.code, count - cnt - 1));
        }
        opt_code := option.code;
        PutAllSnoc([], done, option);
        PutSize(options, option, -1);
        OptionInsert(option.code, option.data);
        done := done + [option];
        cnt := cnt + 1;
      }
      ok := true;
      if p <= packet_len {
        AllRead(done, memory[p..packet_len], opt_code);
      }
    }
  }

  lemma WrongSize(packet: seq<byte>)
    requires |packet| < HEADER_STRUCT || |packet| > MAX_PACKET
    ensures Read(packet).None?
  {
  }

  lemma PacketStart(memory: seq<byte>, packet_len: nat)
    requires 4 <= packet_len <= |memory|
    ensures var packet := memory[..packet_len];
      packet[4..] == memory[4..packet_len] && packet[0] == memory[0] && packet[1] == memory[1] &&
          packet[2] == memory[2] && packet[3] == memory[3]
  {
  }

  ghost function AfterAll(done: seq<CoapOption>, r: Option<Parsed>): Option<Parsed> {
    match r
    case None => None
    case Some(p) => Some(Parsed(done + p.options, p.rest))
  }

  lemma ReadNothing(r: Option<Parsed>)
    ensures AfterAll([], r) == r && PutAll([], []) == []
  {
    if r.Some? {
      assert [] + r.value.options == r.value.options;
    }
  }

  lemma AfterOne(done: seq<CoapOption>, o: CoapOption, r: Option<Parsed>)
    ensures AfterAll(done, Before(o, r)) == AfterAll(done + [o], r)
  {
    if r.Some? {
      assert done + ([o] + r.value.options) == (done + [o]) + r.value.options;
    }
  }

  lemma AllRead(done: seq<CoapOption>, rest: seq<byte>, code: nat)
    requires code < 0x100
    ensures AfterAll(done, ParseOptions(rest, code, 0)) == Some(Parsed(done, rest))
  {
    assert done + [] == done;
  }

  /** One turn of the reading loop. A length that runs past the packet is noticed only after the copy. */
  method ReadOption(memory: seq<byte>, limit: nat, at: nat, code: nat) returns (ok: bool, option: CoapOption, p: nat)
    requires at <= limit <= |memory| && code + 15 < 0x100 && OptionReach(memory, limit, at) <= |memory|
    ensures |option.data| <= MAX_OPTION && (ok ==> p == OptionReach(memory, limit, at))
    ensures ok ==> code <= option.code <= code + 15
    ensures ParseOption(memory[at..limit], code) ==
      if ok && p <= limit then Some(One(option, memory[p..limit])) else None
  {
    ghost var s := memory[at..limit];
    Within(memory, at, limit);
    p := at;
    var opt_code := code + memory[p] / 16;
    var opt_len: nat := memory[p] % 16;
    option := CoapOption(0, []);
    if opt_len == 15 {
      p := p + 1;
      if p > limit {
        return false, option, p;
      }
      opt_len := 15 + memory[p] as int;
    }
    p := p + 1;
    if p > limit {
      return false, option, p;
    }
    option := CoapOption(opt_code, memory[p..p + opt_len]);
    if p + opt_len <= limit {
      Inside(memory, at, limit, p - at, opt_len);
    }
    p := p + opt_len;
    ok := true;
  }

  lemma Suffixes(a: seq<byte>, b: seq<byte>, i: nat, j: nat)
    requires |a| == |b| && i <= j <= |a| && a[i..] == b[i..]
    ensures a[j..] == b[j..]
  {
    assert a[j..] == a[i..][j - i..] && b[j..] == b[i..][j - i..];
  }

  lemma Whole(os: seq<CoapOption>)
    ensures os[0..] == os && LastCode(os[..0]) == 0
  {
  }

  lemma Taking(os: seq<CoapOption>, k: nat)
    requires k < |os|
    ensures os[k..][0] == os[k] && os[k..][1..] == os[k + 1..]
    ensures LastCode(os[..k + 1]) == os[k].code
  {
  }

  lemma FirstGoes(os: seq<CoapOption>)
    requires os != []
    ensures FirstMatch(Entries(os), KeyOf(os[0].code), 1, 0) == 0
    ensures Deleted(Entries(os), KeyOf(os[0].code), 1) == Entries(os[1..])
    ensures Entries(os)[0].data == os[0]
  {
  }

  /** `memcpy` */
  method Copy(buffer: array<byte>, at: nat, data: seq<byte>)
    requires at + |data| <= buffer.Length
    modifies buffer
    ensures buffer[..at] == old(buffer[..at]) && buffer[at..at + |data|] == data
    ensures buffer[at + |data|..] == old(buffer[at + |data|..])
    ensures buffer[..at + |data|] == old(buffer[..at]) + data
  {
    forall i | 0 <= i < |data| {
      buffer[at + i] := data[i];
    }
    assert buffer[..at + |data|] == buffer[..at] + buffer[at..at + |data|];
  }

  /** One turn of the loop over the options: where it fails, it is because the data would begin too late. */
  method WriteOption(buffer: array<byte>, at: nat, option: CoapOption, previous: byte) returns (ok: bool, next: nat)
    requires |option.data| <= MAX_OPTION && OptionExtent(option, at) <= buffer.Length
    modifies buffer
    ensures ok == (at + Head(|option.data|) <= MAX_PACKET) && at <= next <= buffer.Length
    ensures ok ==>
            next == OptionExtent(option, at) && buffer[..next] == old(buffer[..at]) + EncodeOption(option, previous)
    ensures buffer[OptionExtent(option, at)..] == old(buffer[OptionExtent(option, at)..])
  {
    hide EncodeHead;
    ok, next := WriteHead(buffer, at, option, previous);
    if !ok {
      return;
    }
    if next > MAX_PACKET {
      return false, next;
    }
    ghost var headed := buffer[..];
    Copy(buffer, next, option.data);
    next := next + |option.data|;
    ok := true;
    Suffixes(old(buffer[..]), headed, at + Head(|option.data|), next);
    Associate(old(buffer[..at]), EncodeHead(option, previous), option.data);
  }

  method WriteHead(buffer: array<byte>, at: nat, option: CoapOption, previous: byte) returns (ok: bool, next: nat)
    requires |option.data| <= MAX_OPTION && HeadExtent(option, at) <= buffer.Length
    modifies buffer
    ensures at <= next <= buffer.Length && (!ok ==> at + Head(|option.data|) > MAX_PACKET)
    ensures ok ==> next == at + Head(|option.data|) == HeadExtent(option, at)
    ensures buffer[HeadExtent(option, at)..] == old(buffer[HeadExtent(option, at)..])
    ensures ok ==> buffer[..next] == old(buffer[..at]) + EncodeHead(option, previous)
  {
    next := at;
    var delta := option.code - previous;
    if next > MAX_PACKET {
      return false, next;
    }
    buffer[next] := delta % 16 * 16;
    if |option.data| > 15 {
      buffer[next] := buffer[next] + 15;
      next := next + 1;
      if next > MAX_PACKET {
        return false, next;
      }
      buffer[next] := |option.data| - 15;
    } else {
      buffer[next] := buffer[next] + |option.data|;
    }
    next := next + 1;
    ok := true;
  }
}
