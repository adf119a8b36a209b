/** The record layer of the FastCGI Specification 1.0: constants, the record format of
  * section 3.3, and the few fixed records the library builds itself.
  */
module FcgiProtocol {
  import opened Basics

  const VERSION_1: byte := 1
  const HEADER_LEN: nat := 8
  const MAX_LENGTH: nat := 0xffff

  const BEGIN_REQUEST: byte := 1
  const END_REQUEST: byte := 3
  const PARAMS: byte := 4
  const STDIN: byte := 5
  const STDERR: byte := 7
  const GET_VALUES: byte := 9
  const GET_VALUES_RESULT: byte := 10
  const UNKNOWN_TYPE: byte := 11

  const NULL_REQUEST_ID: uint16 := 0

  const REQUEST_COMPLETE: byte := 0
  const CANT_MPX_CONN: byte := 1

  /** A record as it travels: the content and padding bytes themselves, and the reserved
    * byte, which a sender may set to anything.
    */
  datatype Record = Record(kind: byte, id: uint16, content: seq<byte>, padding: seq<byte>, reserved: byte)

  predicate ValidRecord(r: Record) {
    |r.content| <= MAX_LENGTH && |r.padding| < 0x100
  }

  predicate ValidRecords(rs: seq<Record>) {
    forall r :: r in rs ==> ValidRecord(r)
  }

  /** `MakeHeader`, with the reserved byte left open. */
  function Header(kind: byte, id: uint16, contentLength: nat, paddingLength: byte, reserved: byte): (h: seq<byte>)
    requires contentLength <= MAX_LENGTH
    ensures |h| == HEADER_LEN
  {
    [VERSION_1, kind, id / 0x100, id % 0x100, contentLength / 0x100, contentLength % 0x100, paddingLength, reserved]
  }

  function MakeHeader(kind: byte, id: uint16, contentLength: nat, paddingLength: byte): (h: seq<byte>)
    requires contentLength <= MAX_LENGTH
    ensures |h| == HEADER_LEN
  {
    Header(kind, id, contentLength, paddingLength, 0)
  }

  // The fields a receiver reads back out of an eight-byte header.
  function HeaderId(h: seq<byte>): uint16
    requires |h| == HEADER_LEN
  {
    (h[2] as int) * 0x100 + h[3] as int
  }

  function HeaderContentLength(h: seq<byte>): uint16
    requires |h| == HEADER_LEN
  {
    (h[4] as int) * 0x100 + h[5] as int
  }

  function Encode(r: Record): seq<byte>
    requires ValidRecord(r)
  {
    Header(r.kind, r.id, |r.content|, |r.padding|, r.reserved) + r.content + r.padding
  }

  function EncodeAll(rs: seq<Record>): seq<byte>
    requires ValidRecords(rs)
  {
    if rs == [] then [] else Encode(rs[0]) + EncodeAll(rs[1..])
  }

  /** The size of the record at the front of `wire`, when a whole one of version 1 is there. */
  function FirstSize(wire: seq<byte>): (n: Option<nat>)
    ensures n.Some? ==> HEADER_LEN <= n.value <= |wire|
  {
    if |wire| < HEADER_LEN || wire[0] != VERSION_1 then None
    else
      var whole := HEADER_LEN + HeaderContentLength(wire[..HEADER_LEN]) + wire[6];
      if |wire| < whole then None else Some(whole)
  }

  function First(wire: seq<byte>): Record
    requires FirstSize(wire).Some?
  {
    var h := wire[..HEADER_LEN];
    var body := HEADER_LEN + HeaderContentLength(h);
    Record(h[1], HeaderId(h), wire[HEADER_LEN..body], wire[body..FirstSize(wire).value], h[7])
  }

  /** The section 3.3 reading of a byte string: nothing but whole records of version 1. */
  function Parse(wire: seq<byte>): (r: Option<seq<Record>>)
    decreases |wire|
  {
    if wire == [] then Some([])
    else
      match FirstSize(wire)
      case None => None
      case Some(n) =>
        match Parse(wire[n..])
        case None => None
        case Some(rest) => Some([First(wire)] + rest)
  }

  /** The header of section 3.3, byte by byte: the two-byte fields have their high byte first. */
  lemma HeaderFields(kind: byte, id: uint16, contentLength: nat, paddingLength: byte, reserved: byte)
    requires contentLength <= 65535
    ensures var h := Header(kind, id, contentLength, paddingLength, reserved);
      && |h| == 8 && h[0] == 1 && h[1] == kind
      && h[2] as int * 256 + h[3] as int == id == HeaderId(h)
      && h[4] as int * 256 + h[5] as int == contentLength == HeaderContentLength(h)
      && h[6] == paddingLength && h[7] == reserved
  {
  }

  /** The record types, and the states of a request, as numbered in section 8 of the FastCGI Specification 1.0. */
  lemma NumbersOfTheProtocol()
    ensures VERSION_1 == 1 && HEADER_LEN == 8 && MAX_LENGTH == 65535 && NULL_REQUEST_ID == 0
    ensures BEGIN_REQUEST == 1 && END_REQUEST == 3 && PARAMS == 4 && STDIN == 5 && STDERR == 7
    ensures GET_VALUES == 9 && GET_VALUES_RESULT == 10 && UNKNOWN_TYPE == 11
    ensures REQUEST_COMPLETE == 0 && CANT_MPX_CONN == 1
  {
  }

  /** A record on the wire: where its fields are, then its content, then its padding. */
  lemma EncodeLayout(r: Record, tail: seq<byte>)
    requires ValidRecord(r)
    ensures var w := Encode(r);
            && |w| == 8 + |r.content| + |r.padding| && w[0] == 1 && w[1] == r.kind
            && w[2] as int * 256 + w[3] as int == r.id && w[4] as int * 256 + w[5] as int == |r.content|
            && w[6] == |r.padding| && w[7] == r.reserved
            && w[8..8 + |r.content|] == r.content && w[8 + |r.content|..] == r.padding
    ensures var w := Encode(r) + tail;
            var body, whole := HEADER_LEN + |r.content|, HEADER_LEN + |r.content| + |r.padding|;
            && |w| == whole + |tail|
            && w[..HEADER_LEN] == Header(r.kind, r.id, |r.content|, |r.padding|, r.reserved)
            && w[HEADER_LEN..] == r.content + r.padding + tail
            && w[HEADER_LEN..body] == r.content
            && w[body..whole] == r.padding
            && w[whole..] == tail
  {
  }

  lemma EncodeOne(r: Record)
    requires ValidRecord(r)
    ensures EncodeAll([r]) == Encode(r)
  {
    hide Encode;
    assert EncodeAll([]) == [] && [r][1..] == [];
    assert EncodeAll([r]) == Encode(r) + EncodeAll([]);
    assert Encode(r) + [] == Encode(r);
  }

  lemma EncodeAllAppend(xs: seq<Record>, ys: seq<Record>)
    requires ValidRecords(xs) && ValidRecords(ys)
    ensures ValidRecords(xs + ys)
    ensures EncodeAll(xs + ys) == EncodeAll(xs) + EncodeAll(ys)
  {
    if xs == [] {
      assert xs + ys == ys;
    } else {
      assert (xs + ys)[1..] == xs[1..] + ys;
      EncodeAllAppend(xs[1..], ys);
      assert Encode(xs[0]) + (EncodeAll(xs[1..]) + EncodeAll(ys)) == EncodeAll(xs) + EncodeAll(ys);
    }
  }

  lemma HeaderOfFields(h: seq<byte>)
    requires |h| == HEADER_LEN && h[0] == VERSION_1
    ensures Header(h[1], HeaderId(h), HeaderContentLength(h), h[6], h[7]) == h
  {
  }

  lemma FirstOfEncoded(r: Record, tail: seq<byte>)
    requires ValidRecord(r)
    ensures FirstSize(Encode(r) + tail) == Some(|Encode(r)|)
    ensures First(Encode(r) + tail) == r
    ensures (Encode(r) + tail)[|Encode(r)|..] == tail
  {
    EncodeLayout(r, tail);
    HeaderFields(r.kind, r.id, |r.content|, |r.padding|, r.reserved);
  }

  lemma EncodeFirst(wire: seq<byte>)
    requires FirstSize(wire).Some?
    ensures ValidRecord(First(wire))
    ensures Encode(First(wire)) == wire[..FirstSize(wire).value]
  {
    HeaderOfFields(wire[..HEADER_LEN]);
  }

  /** Printing records and parsing the result gives the records back... */
  lemma {:induction false} ParseEncode(rs: seq<Record>)
    requires ValidRecords(rs)
    ensures Parse(EncodeAll(rs)) == Some(rs)
  {
    if rs != [] {
      FirstOfEncoded(rs[0], EncodeAll(rs[1..]));
      ParseEncode(rs[1..]);
      assert [rs[0]] + rs[1..] == rs;
    }
  }

  /** ...and a byte string that parses is the printed form of what it parses to, so the
    * decomposition of a wire into records is unique.
    */
  lemma {:induction false} EncodeParse(wire: seq<byte>)
    requires Parse(wire).Some?
    ensures ValidRecords(Parse(wire).value)
    ensures EncodeAll(Parse(wire).value) == wire
    decreases |wire|
  {
    if wire != [] {
      var n := FirstSize(wire).value;
      EncodeFirst(wire);
      EncodeParse(wire[n..]);
      var rest := Parse(wire[n..]).value;
      assert ([First(wire)] + rest)[1..] == rest;
      assert wire == wire[..n] + wire[n..];
    }
  }

  // ---------------------------------------------------------------- fixed records

  /** `AlignInt8`: round up to a multiple of eight. */
  function AlignInt8(n: nat): (m: nat)
    ensures m % 8 == 0 && n <= m < n + 8
  {
    (n + 7) / 8 * 8
  }

  function Zeros(n: nat): (z: seq<byte>)
    ensures |z| == n && forall i :: 0 <= i < n ==> z[i] == 0
  {
    seq(n, _ => 0)
  }

  /** `MakeEndRequestBody`; the exit status is a C int, stored big-endian in two's complement. */
  function EndRequestBody(appStatus: int, protocolStatus: byte): (body: seq<byte>)
    ensures |body| == 8
  {
    [appStatus / 0x100_0000 % 0x100, appStatus / 0x1_0000 % 0x100, appStatus / 0x100 % 0x100, appStatus % 0x100,
     protocolStatus, 0, 0, 0]
  }

  function EndRequestRecord(id: uint16, appStatus: int, protocolStatus: byte): (r: Record)
    ensures ValidRecord(r)
  {
    Record(END_REQUEST, id, EndRequestBody(appStatus, protocolStatus), [], 0)
  }

  /** The body carries the status modulo 2^32, high byte first, and the protocol status. */
  lemma EndRequestCarries(appStatus: int, protocolStatus: byte)
    ensures var body := EndRequestBody(appStatus, protocolStatus);
      && body[0] as int * 0x100_0000 + body[1] as int * 0x1_0000 + body[2] as int * 0x100 + body[3] as int
         == appStatus % 0x1_0000_0000
      && body[4] == protocolStatus
  {
    Shifts(appStatus);
    var body, top := EndRequestBody(appStatus, protocolStatus), appStatus / 0x100_0000;
    var carried := body[0] as int * 0x100_0000 + body[1] as int * 0x1_0000 + body[2] as int * 0x100 + body[3] as int;
    assert appStatus == 0x100_0000 * top + (carried - top % 0x100 * 0x100_0000);
    Remainder(appStatus, top / 0x100, carried);
  }

  /** A number over its lowest three bytes. */
  lemma Shifts(n: int)
    ensures n == 0x100_0000 * (n / 0x100_0000) + n / 0x1_0000 % 0x100 * 0x1_0000 + n / 0x100 % 0x100 * 0x100 + n % 0x100
  {
    assert n / 0x100 / 0x100 == n / 0x1_0000;
    assert n / 0x1_0000 / 0x100 == n / 0x100_0000;
  }

  lemma Remainder(n: int, q: int, r: int)
    requires n == 0x1_0000_0000 * q + r && 0 <= r < 0x1_0000_0000
    ensures n % 0x1_0000_0000 == r
  {
  }

  function UnknownTypeRecord(kind: byte): (r: Record)
    ensures ValidRecord(r)
  {
    Record(UNKNOWN_TYPE, NULL_REQUEST_ID, [kind, 0, 0, 0, 0, 0, 0, 0], [], 0)
  }
}
