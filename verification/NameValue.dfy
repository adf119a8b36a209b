/** Name-value pairs (section 3.4 of the FastCGI Specification 1.0), what ReadParams makes of
  * them, and the environment vector they are collected in.
  */
module NameValue {
  import opened Basics
  import opened FcgiProtocol

  const EQUALS: byte := 61

  const MAX_PAIR_LENGTH: nat := 0x8000_0000

  datatype Pair = Pair(name: seq<byte>, value: seq<byte>)

  /** A pair together with the sender's choice, per length, of the four-byte form. */
  datatype CodedPair = CodedPair(pair: Pair, longName: bool, longValue: bool)

  predicate ValidLength(n: nat, long: bool) {
    n < if long then MAX_PAIR_LENGTH else 0x80
  }

  /** The size of the entry, with its separator and terminator, is one an `int` holds. */
  predicate Allocatable(nameLen: nat, valueLen: nat) {
    nameLen + valueLen + 2 < MAX_PAIR_LENGTH
  }

  predicate AllAllocatable(cs: seq<CodedPair>) {
    forall c :: c in cs ==> Allocatable(|c.pair.name|, |c.pair.value|)
  }

  predicate ValidCoded(c: CodedPair) {
    ValidLength(|c.pair.name|, c.longName) && ValidLength(|c.pair.value|, c.longValue)
  }

  predicate ValidCodedPairs(cs: seq<CodedPair>) {
    forall c :: c in cs ==> ValidCoded(c)
  }

  function EncodeLength(n: nat, long: bool): (e: seq<byte>)
    requires ValidLength(n, long)
    ensures |e| == if long then 4 else 1
  {
    if long then [0x80 + n / 0x100_0000, n / 0x1_0000 % 0x100, n / 0x100 % 0x100, n % 0x100] else [n]
  }

  function EncodePair(c: CodedPair): seq<byte>
    requires ValidCoded(c)
  {
    EncodeLength(|c.pair.name|, c.longName) + EncodeLength(|c.pair.value|, c.longValue) + c.pair.name + c.pair.value
  }

  function EncodePairs(cs: seq<CodedPair>): seq<byte>
    requires ValidCodedPairs(cs)
  {
    if cs == [] then [] else EncodePair(cs[0]) + EncodePairs(cs[1..])
  }

  /** The environment entry of a pair: `name=value`. */
  function Joined(p: Pair): seq<byte> {
    p.name + [EQUALS] + p.value
  }

  function Entries(cs: seq<CodedPair>): (es: seq<seq<byte>>)
    ensures |es| == |cs| && forall i :: 0 <= i < |cs| ==> es[i] == Joined(cs[i].pair)
  {
    if cs == [] then [] else [Joined(cs[0].pair)] + Entries(cs[1..])
  }

  // ------------------------------------------------------------------ decoding

  /** A decoded length and the number of bytes it took; nothing when the bytes run out. */
  function DecodeLength(bs: seq<byte>): (r: Option<(nat, nat)>)
    ensures r.Some? ==> 0 < r.value.1 <= |bs|
  {
    if bs == [] then None
    else if bs[0] < 0x80 then Some((bs[0], 1))
    else if |bs| < 4 then None
    else Some(((bs[0] - 0x80) as int * 0x100_0000 + bs[1] as int * 0x1_0000 + bs[2] as int * 0x100 + bs[3] as int, 4))
  }

  /** One pair off the front of `bs`: its entry and its encoded size. */
  function DecodePair(bs: seq<byte>): (r: Option<(seq<byte>, nat)>)
    ensures r.Some? ==> 0 < r.value.1 <= |bs|
  {
    match DecodeLength(bs)
    case None => None
    case Some((nameLen, k)) =>
      match DecodeLength(bs[k..])
      case None => None
      case Some((valueLen, m)) =>
        var start := k + m;
        if !Allocatable(nameLen, valueLen) || |bs| < start + nameLen + valueLen then None
        else
          Some((Joined(Pair(bs[start..start + nameLen], bs[start + nameLen..start + nameLen + valueLen])),
                start + nameLen + valueLen))
  }

  /** The pair at the front of `bs` is announced with lengths that overflow. */
  predicate Overflows(bs: seq<byte>) {
    match DecodeLength(bs)
    case None => false
    case Some((nameLen, k)) =>
      match DecodeLength(bs[k..])
      case None => false
      case Some((valueLen, _)) => !Allocatable(nameLen, valueLen)
  }

  /** How a content byte string ends: between two pairs, inside one, or with a pair whose size is more than an
    * `int` holds. In the last case the C code computes a wrong size and what follows is undefined.
    */
  datatype ParseEnd = Between | Inside | Overflow

  /** The entries ReadParams collects from a content byte string before it ends, and how it ends. */
  datatype Parsed = Parsed(entries: seq<seq<byte>>, end: ParseEnd)
  {
    predicate Ok() { end == Between }
  }

  function ParsePairs(bs: seq<byte>): Parsed
    decreases |bs|
  {
    if bs == [] then Parsed([], Between)
    else
      match DecodePair(bs)
      case None => Parsed([], if Overflows(bs) then Overflow else Inside)
      case Some((entry, size)) =>
        var rest := ParsePairs(bs[size..]);
        Parsed([entry] + rest.entries, rest.end)
  }

  lemma FourByteLength(b3: nat, b2: byte, b1: byte, b0: byte)
    requires b3 < 0x80
    ensures var n := b3 * 0x100_0000 + b2 * 0x1_0000 + b1 * 0x100 + b0;
            && n < MAX_PAIR_LENGTH
            && n / 0x100_0000 == b3
            && n / 0x1_0000 % 0x100 == b2
            && n / 0x100 % 0x100 == b1
            && n % 0x100 == b0
  {
    var n := b3 * 0x100_0000 + b2 * 0x1_0000 + b1 * 0x100 + b0;
    assert n / 0x100 == b3 * 0x1_0000 + b2 * 0x100 + b1;
    assert n / 0x1_0000 == b3 * 0x100 + b2;
  }

  lemma DecodeEncodedLength(n: nat, long: bool, tail: seq<byte>)
    requires ValidLength(n, long)
    ensures DecodeLength(EncodeLength(n, long) + tail) == Some((n, if long then 4 else 1))
    ensures (EncodeLength(n, long) + tail)[if long then 4 else 1..] == tail
  {
    if long {
      FourBytes(n);
      assert 0x80 <= EncodeLength(n, long)[0];
    }
  }

  lemma FourBytes(n: nat)
    requires n < MAX_PAIR_LENGTH
    ensures n / 0x100_0000 < 0x80
    ensures n / 0x100_0000 * 0x100_0000 + n / 0x1_0000 % 0x100 * 0x1_0000 + n / 0x100 % 0x100 * 0x100 + n % 0x100 == n
  {
  }

  /** Section 3.4: a length is one byte below 128, or four bytes, high byte first, of which the first has its high bit
    * set.
    */
  predicate Spells(bytes: seq<byte>, n: nat) {
    || (|bytes| == 1 && n < 128 && bytes[0] == n)
    || (|bytes| == 4 && bytes[0] >= 128 &&
        n == (bytes[0] - 128) as int * 0x100_0000 + bytes[1] as int * 0x1_0000 + bytes[2] as int * 0x100
            + bytes[3] as int)
  }

  /** A coded pair: the length of the name, the length of the value, the name, the value. */
  lemma PairLayout(c: CodedPair)
    requires ValidCoded(c)
    ensures var e, i := EncodePair(c), if c.longName then 4 else 1;
      var j := i + if c.longValue then 4 else 1;
      && |e| == j + |c.pair.name| + |c.pair.value|
      && Spells(e[..i], |c.pair.name|) && Spells(e[i..j], |c.pair.value|)
      && e[j..j + |c.pair.name|] == c.pair.name && e[j + |c.pair.name|..] == c.pair.value
  {
    hide EncodeLength, Spells;
    LengthSpelled(|c.pair.name|, c.longName);
    LengthSpelled(|c.pair.value|, c.longValue);
    var l, m := EncodeLength(|c.pair.name|, c.longName), EncodeLength(|c.pair.value|, c.longValue);
    FourPieces(l, m, c.pair.name, c.pair.value);
  }

  lemma FourPieces(a: seq<byte>, b: seq<byte>, c: seq<byte>, d: seq<byte>)
    ensures var all, i, j := a + b + c + d, |a|, |a| + |b|;
      all[..i] == a && all[i..j] == b && all[j..j + |c|] == c && all[j + |c|..] == d
  {
  }

  lemma LengthSpelled(n: nat, long: bool)
    requires ValidLength(n, long)
    ensures Spells(EncodeLength(n, long), n)
  {
    if long {
      FourBytes(n);
    }
  }

  /** The entry of a pair holds an equals sign between name and value, and has an int for its size up to 2^31 - 1. */
  lemma EntryLayout(p: Pair)
    ensures |Joined(p)| == |p.name| + 1 + |p.value|
    ensures Joined(p)[..|p.name|] == p.name && Joined(p)[|p.name|] == 61 && Joined(p)[|p.name| + 1..] == p.value
    ensures Allocatable(|p.name|, |p.value|) <==> |Joined(p)| + 1 <= 2147483647
  {
  }

  lemma DecodeEncodedPair(c: CodedPair, tail: seq<byte>)
    requires ValidCoded(c)
    ensures var fits := Allocatable(|c.pair.name|, |c.pair.value|);
            && DecodePair(EncodePair(c) + tail) == (if fits then Some((Joined(c.pair), |EncodePair(c)|)) else None)
            && Overflows(EncodePair(c) + tail) == !fits
    ensures (EncodePair(c) + tail)[|EncodePair(c)|..] == tail
  {
    hide DecodeLength, EncodeLength;
    EncodedLengths(c, tail);
    var prefix := EncodeLength(|c.pair.name|, c.longName) + EncodeLength(|c.pair.value|, c.longValue);
    BodySlices(prefix, c.pair.name, c.pair.value, tail);
    assert EncodePair(c) == prefix + c.pair.name + c.pair.value;
  }

  lemma EncodedLengths(c: CodedPair, tail: seq<byte>)
    requires ValidCoded(c)
    ensures var bs, k := EncodePair(c) + tail, if c.longName then 4 else 1;
            && k <= |bs| && DecodeLength(bs) == Some((|c.pair.name|, k))
            && DecodeLength(bs[k..]) == Some((|c.pair.value|, if c.longValue then 4 else 1))
  {
    hide DecodeLength, EncodeLength;
    var name, value := c.pair.name, c.pair.value;
    var l, m := EncodeLength(|name|, c.longName), EncodeLength(|value|, c.longValue);
    var body := name + value + tail;
    assert EncodePair(c) + tail == l + (m + body);
    DecodeEncodedLength(|name|, c.longName, m + body);
    DecodeEncodedLength(|value|, c.longValue, body);
  }

  lemma BodySlices(prefix: seq<byte>, name: seq<byte>, value: seq<byte>, tail: seq<byte>)
    ensures var bs, start := prefix + name + value + tail, |prefix|;
            && bs[start..start + |name|] == name
            && bs[start + |name|..start + |name| + |value|] == value
  {
  }

  /** Decoding undoes encoding, whichever length forms the sender chose, exactly when the size of every entry is one
    * an `int` holds; otherwise it overflows.
    */
  lemma {:induction false} ParseEncodedPairs(cs: seq<CodedPair>)
    requires ValidCodedPairs(cs)
    ensures AllAllocatable(cs) ==> ParsePairs(EncodePairs(cs)) == Parsed(Entries(cs), Between)
    ensures !AllAllocatable(cs) ==> ParsePairs(EncodePairs(cs)).end == Overflow
  {
    if cs != [] {
      var tail := EncodePairs(cs[1..]);
      DecodeEncodedPair(cs[0], tail);
      ParseEncodedPairs(cs[1..]);
      assert cs == [cs[0]] + cs[1..];
    }
  }

  /** Encoding one list behind another. */
  lemma {:induction false} EncodePairsAppend(a: seq<CodedPair>, b: seq<CodedPair>)
    requires ValidCodedPairs(a) && ValidCodedPairs(b)
    ensures ValidCodedPairs(a + b) && EncodePairs(a + b) == EncodePairs(a) + EncodePairs(b)
    ensures Entries(a + b) == Entries(a) + Entries(b)
  {
    hide ValidCoded, EncodePair, Joined;
    if a == [] {
      assert a + b == b;
    } else {
      assert (a + b)[0] == a[0] && (a + b)[1..] == a[1..] + b;
      EncodePairsAppend(a[1..], b);
      Associate(EncodePair(a[0]), EncodePairs(a[1..]), EncodePairs(b));
    }
  }

  /** Eight bytes are enough to overflow. */
  lemma EightBytesOverflow(tail: seq<byte>)
    ensures ParsePairs([0xff, 0xff, 0xff, 0xff, 0xff, 0xff, 0xff, 0xff] + tail) == Parsed([], Overflow)
  {
    var bs: seq<byte> := [0xff, 0xff, 0xff, 0xff, 0xff, 0xff, 0xff, 0xff] + tail;
    assert bs[4..] == [0xff, 0xff, 0xff, 0xff] + tail;
    assert DecodeLength(bs) == Some((0x7fff_ffff, 4)) && DecodeLength(bs[4..]) == Some((0x7fff_ffff, 4));
  }

  lemma EncodedDecodedLength(bs: seq<byte>)
    requires DecodeLength(bs).Some?
    ensures var (n, k) := DecodeLength(bs).value;
            && (k == 1 || k == 4)
            && ValidLength(n, k == 4)
            && EncodeLength(n, k == 4) == bs[..k]
  {
    if bs[0] >= 0x80 {
      FourByteLength((bs[0] - 0x80) as int, bs[1], bs[2], bs[3]);
    }
  }

  lemma DecodedPairIsEncoded(bs: seq<byte>) returns (c: CodedPair)
    requires DecodePair(bs).Some?
    ensures ValidCoded(c) && Allocatable(|c.pair.name|, |c.pair.value|)
    ensures EncodePair(c) == bs[..DecodePair(bs).value.1]
    ensures Joined(c.pair) == DecodePair(bs).value.0
  {
    EncodedDecodedLength(bs);
    var (nameLen, k) := DecodeLength(bs).value;
    EncodedDecodedLength(bs[k..]);
    var (valueLen, m) := DecodeLength(bs[k..]).value;
    var start := k + m;
    var name, value := bs[start..start + nameLen], bs[start + nameLen..start + nameLen + valueLen];
    assert DecodePair(bs) == Some((Joined(Pair(name, value)), start + nameLen + valueLen));
    Pieces(bs, k, start, start + nameLen, start + nameLen + valueLen);
    c := CodedPair(Pair(name, value), k == 4, m == 4);
    assert |name| == nameLen && |value| == valueLen;
    assert EncodePair(c) == bs[..k] + bs[k..][..m] + name + value;
  }

  lemma Pieces(bs: seq<byte>, i: nat, j: nat, k: nat, l: nat)
    requires i <= j <= k <= l <= |bs|
    ensures bs[..i] + bs[i..][..j - i] + bs[j..k] + bs[k..l] == bs[..l]
  {
    assert bs[..i] + bs[i..][..j - i] == bs[..j];
    assert bs[..j] + bs[j..k] == bs[..k];
    assert bs[..k] + bs[k..l] == bs[..l];
  }

  /** The converse: ReadParams succeeds on nothing but encoded pair lists. */
  lemma {:induction false} ParsedIsEncoded(bs: seq<byte>) returns (cs: seq<CodedPair>)
    requires ParsePairs(bs).Ok()
    ensures ValidCodedPairs(cs) && AllAllocatable(cs)
    ensures EncodePairs(cs) == bs
    ensures Entries(cs) == ParsePairs(bs).entries
    decreases |bs|
  {
    hide EncodePair;
    hide ValidCoded, Allocatable, DecodePair;
    if bs == [] {
      cs := [];
    } else {
      var c := DecodedPairIsEncoded(bs);
      var size := DecodePair(bs).value.1;
      var rest := ParsedIsEncoded(bs[size..]);
      cs := [c] + rest;
      assert cs[1..] == rest;
      assert bs == bs[..size] + bs[size..];
    }
  }

  // ------------------------------------------------------------------ lists that are cut short

  /** How many whole pairs the first `n` bytes of a list hold. */
  function PairsWithin(cs: seq<CodedPair>, n: nat): (k: nat)
    requires ValidCodedPairs(cs)
    ensures k <= |cs|
  {
    if cs == [] || n < |EncodePair(cs[0])| then 0 else 1 + PairsWithin(cs[1..], n - |EncodePair(cs[0])|)
  }

  lemma PrefixSize(cs: seq<CodedPair>, k: nat)
    requires ValidCodedPairs(cs) && 0 < k <= |cs|
    ensures ValidCoded(cs[0]) && |EncodePairs(cs[..k])| == |EncodePair(cs[0])| + |EncodePairs(cs[1..][..k - 1])|
  {
    hide ValidCoded, EncodePair;
    assert cs[0] in cs;
    assert cs[..k][1..] == cs[1..][..k - 1] && cs[..k][0] == cs[0];
  }

  /** It is the one number of pairs that fit, where one more would not. */
  lemma {:induction false} PairsWithinFit(cs: seq<CodedPair>, n: nat)
    requires ValidCodedPairs(cs)
    ensures var k := PairsWithin(cs, n); |EncodePairs(cs[..k])| <= n && (k < |cs| ==> n < |EncodePairs(cs[..k + 1])|)
  {
    hide ValidCoded, EncodePair;
    if cs != [] {
      var k := PairsWithin(cs, n);
      PrefixSize(cs, 1);
      assert cs[..0] == [];
      if k > 0 {
        PairsWithinFit(cs[1..], n - |EncodePair(cs[0])|);
        PrefixSize(cs, k);
        if k < |cs| {
          PrefixSize(cs, k + 1);
        }
      }
    }
  }

  lemma DecodeCutLength(n: nat, long: bool, m: nat)
    requires ValidLength(n, long) && m < |EncodeLength(n, long)|
    ensures DecodeLength(EncodeLength(n, long)[..m]) == None
  {
    if long {
      FourBytes(n);
      assert m > 0 ==> EncodeLength(n, long)[..m][0] == EncodeLength(n, long)[0] >= 0x80;
    }
  }

  lemma DecodeCutPair(c: CodedPair, n: nat)
    requires ValidCoded(c) && Allocatable(|c.pair.name|, |c.pair.value|) && n < |EncodePair(c)|
    ensures DecodePair(EncodePair(c)[..n]) == None && !Overflows(EncodePair(c)[..n])
  {
    hide DecodeLength, EncodeLength;
    var l, m := EncodeLength(|c.pair.name|, c.longName), EncodeLength(|c.pair.value|, c.longValue);
    var bs, body := EncodePair(c)[..n], c.pair.name + c.pair.value;
    assert EncodePair(c) == l + (m + body);
    if n < |l| {
      assert bs == l[..n];
      DecodeCutLength(|c.pair.name|, c.longName, n);
    } else {
      assert bs == l + (m + body)[..n - |l|];
      DecodeEncodedLength(|c.pair.name|, c.longName, (m + body)[..n - |l|]);
      if n < |l| + |m| {
        assert (m + body)[..n - |l|] == m[..n - |l|];
        DecodeCutLength(|c.pair.value|, c.longValue, n - |l|);
      } else {
        assert (m + body)[..n - |l|] == m + body[..n - |l| - |m|];
        DecodeEncodedLength(|c.pair.value|, c.longValue, body[..n - |l| - |m|]);
      }
    }
  }

  /** A list of pairs that is cut short decodes to its whole pairs, and without an error exactly when it is cut between
    * two of them.
    */
  lemma {:induction false} CutPairs(cs: seq<CodedPair>, n: nat)
    requires ValidCodedPairs(cs) && AllAllocatable(cs) && n <= |EncodePairs(cs)|
    ensures var p, k := ParsePairs(EncodePairs(cs)[..n]), PairsWithin(cs, n);
      && p.end != Overflow && p.entries == Entries(cs[..k])
      && (p.Ok() <==> n == |EncodePairs(cs[..k])|)
  {
    hide ValidCoded, Allocatable, EncodePair, DecodePair, Overflows, Joined;
    var k := PairsWithin(cs, n);
    if cs == [] {
      assert EncodePairs(cs)[..n] == [];
    } else {
      var first, rest := EncodePair(cs[0]), cs[1..];
      assert cs[0] in cs && EncodePairs(cs) == first + EncodePairs(rest);
      if n < |first| {
        assert EncodePairs(cs)[..n] == first[..n] && cs[..k] == [];
        DecodeCutPair(cs[0], n);
      } else {
        var tail := EncodePairs(rest)[..n - |first|];
        assert EncodePairs(cs)[..n] == first + tail;
        DecodeEncodedPair(cs[0], tail);
        CutPairs(rest, n - |first|);
        PrefixSize(cs, k);
        assert cs[..k][1..] == rest[..k - 1] && cs[..k][0] == cs[0];
      }
    }
  }

  /** What decodes never overflows when it is cut short. */
  lemma CutNeverOverflows(bs: seq<byte>, n: nat)
    requires ParsePairs(bs).Ok() && n <= |bs|
    ensures ParsePairs(bs[..n]).end != Overflow
  {
    var cs := ParsedIsEncoded(bs);
    CutPairs(cs, n);
  }

  // ------------------------------------------------------------- the environment

  /** A slot of the environment vector; the vector ends at its first NULL. */
  datatype Slot = Null | Entry(text: seq<byte>)

  function Slots(entries: seq<seq<byte>>): (s: seq<Slot>)
    ensures |s| == |entries| && forall i :: 0 <= i < |s| ==> s[i] == Entry(entries[i])
  {
    seq(|entries|, i requires 0 <= i < |entries| => Entry(entries[i]))
  }

  class Params {
    var vec: array<Slot>
    var length: nat
    var cur: nat
    ghost var contents: seq<seq<byte>>

    /** The terminator at `cur` is always inside the vector. */
    ghost predicate Valid()
      reads this, vec
    {
      && length == vec.Length
      && cur < length
      && vec[..cur] == Slots(contents)
      && vec[cur] == Null
    }

    /** `NewParams` */
    constructor (length: nat)
      requires 0 < length
      ensures Valid() && fresh(vec) && contents == []
    {
      this.length := length;
      cur := 0;
      contents := [];
      vec := new Slot[length](_ => Null);
    }

    /** `PutParam`: append, doubling the vector when the terminator would fall outside it. */
    method PutParam(nameValue: seq<byte>)
      requires Valid()
      modifies this, vec
      ensures Valid() && (vec == old(vec) || fresh(vec))
      ensures contents == old(contents) + [nameValue]
    {
      vec[cur] := Entry(nameValue);
      cur := cur + 1;
      contents := contents + [nameValue];
      assert vec[..cur] == Slots(contents);
      if cur >= length {
        length := length * 2;
        var grown := new Slot[length](_ => Null);
        forall i | 0 <= i < cur {
          grown[i] := vec[i];
        }
        assert grown[..cur] == vec[..cur];
        vec := grown;
      }
      vec[cur] := Null;
      assert vec[..cur] == Slots(contents);
    }

    lemma EntryAt(p: nat)
      requires Valid() && p < cur
      ensures p < |contents| && vec[p] == Entry(contents[p])
    {
      assert vec[p] == vec[..cur][p];
    }

    /** `FCGX_GetParam`: a linear search for the first entry that starts with `name=`. */
    method GetParam(name: seq<byte>) returns (value: Option<seq<byte>>)
      requires Valid()
      requires 0 !in name
      ensures value == Lookup(contents, name)
    {
      var p := 0;
      while vec[p] != Null
        invariant p <= cur
        invariant Lookup(contents, name) == Lookup(contents[p..], name)
        decreases cur - p
      {
        EntryAt(p);
        if Matches(vec[p].text, name) {
          return Some(vec[p].text[|name| + 1..]);
        }
        p := p + 1;
      }
      assert contents[p..] == [];
      return None;
    }
  }

  /** The test `strncmp(name, p, len) == 0 && p[len] == '='`. */
  predicate Matches(entry: seq<byte>, name: seq<byte>) {
    |name| < |entry| && entry[..|name|] == name && entry[|name|] == EQUALS
  }

  function Lookup(entries: seq<seq<byte>>, name: seq<byte>): (value: Option<seq<byte>>)
  {
    if entries == [] then None
    else if Matches(entries[0], name) then Some(entries[0][|name| + 1..])
    else Lookup(entries[1..], name)
  }

  /** The entry of a pair begins with the name and an equals sign. */
  predicate Hits(p: Pair, name: seq<byte>) {
    name + [EQUALS] <= Joined(p)
  }

  /** What stands before the first equals sign of a name. */
  function Key(name: seq<byte>): seq<byte> {
    if name == [] || name[0] == EQUALS then [] else [name[0]] + Key(name[1..])
  }

  lemma MatchesJoined(p: Pair, name: seq<byte>)
    ensures Matches(Joined(p), name) <==> Hits(p, name)
    ensures p.name == name ==> Hits(p, name) && Joined(p)[|name| + 1..] == p.value
  {
    var e := Joined(p);
    if Matches(e, name) {
      assert e[..|name| + 1] == e[..|name|] + [e[|name|]];
    }
    if Hits(p, name) {
      assert e[..|name|] == (name + [EQUALS])[..|name|] == name;
    }
    if p.name == name {
      assert e == name + [EQUALS] + p.value;
    }
  }

  /** A proper name hits the pairs whose name is the same up to its first equals sign. */
  lemma {:induction false} HitsByKey(p: Pair, name: seq<byte>)
    requires EQUALS !in name
    ensures Hits(p, name) <==> Key(p.name) == name
    ensures EQUALS !in p.name ==> Key(p.name) == p.name
    decreases |p.name|
  {
    var e := Joined(p);
    if p.name == [] {
      assert e[0] == EQUALS;
      assert name != [] ==> (name + [EQUALS])[0] == name[0];
    } else {
      var rest := Pair(p.name[1..], p.value);
      assert e == [p.name[0]] + Joined(rest);
      if name == [] {
        HitsByKey(rest, []);
        assert e[0] == p.name[0] && ([EQUALS] <= e <==> e[0] == EQUALS);
        assert name + [EQUALS] == [EQUALS];
      } else {
        HitsByKey(rest, name[1..]);
        assert name == [name[0]] + name[1..];
        assert name + [EQUALS] == [name[0]] + (name[1..] + [EQUALS]);
        SamePrefix(name[0], name[1..] + [EQUALS], p.name[0], Joined(rest));
      }
    }
  }

  lemma SamePrefix(a: byte, s: seq<byte>, b: byte, t: seq<byte>)
    ensures [a] + s <= [b] + t <==> a == b && s <= t
  {
    if [a] + s <= [b] + t {
      assert ([a] + s)[0] == ([b] + t)[0];
      assert forall i :: 0 <= i < |s| ==> s[i] == ([a] + s)[i + 1] && t[i] == ([b] + t)[i + 1];
    }
  }

  /** Looking a name up finds the first pair it hits, and fails only when it hits none. Where no name holds an equals
    * sign that is the first pair of the name, and its value is returned.
    */
  lemma {:induction false} LookupFindsFirst(cs: seq<CodedPair>, name: seq<byte>)
    ensures Lookup(Entries(cs), name) == None <==> forall i :: 0 <= i < |cs| ==> !Hits(cs[i].pair, name)
    ensures forall k ::
              0 <= k < |cs| && Hits(cs[k].pair, name) && (forall i :: 0 <= i < k ==> !Hits(cs[i].pair, name))
              ==> Lookup(Entries(cs), name) == Some(Joined(cs[k].pair)[|name| + 1..])
  {
    if cs != [] {
      hide Hits, Joined;
      MatchesJoined(cs[0].pair, name);
      assert Entries(cs)[1..] == Entries(cs[1..]);
      LookupFindsFirst(cs[1..], name);
      assert forall i :: 0 < i < |cs| ==> cs[i] == cs[1..][i - 1];
      assert forall i :: 0 <= i < |cs[1..]| ==> cs[1..][i] == cs[i + 1];
    }
  }

  lemma LookupByName(cs: seq<CodedPair>, name: seq<byte>)
    requires EQUALS !in name && forall i :: 0 <= i < |cs| ==> EQUALS !in cs[i].pair.name
    ensures Lookup(Entries(cs), name) == None <==> forall i :: 0 <= i < |cs| ==> cs[i].pair.name != name
    ensures forall k ::
              0 <= k < |cs| && cs[k].pair.name == name && (forall i :: 0 <= i < k ==> cs[i].pair.name != name)
              ==> Lookup(Entries(cs), name) == Some(cs[k].pair.value)
  {
    hide Hits, Joined, Key, Lookup, Entries;
    forall i | 0 <= i < |cs|
      ensures Hits(cs[i].pair, name) <==> cs[i].pair.name == name
      ensures cs[i].pair.name == name ==>
                |name| < |Joined(cs[i].pair)| && Joined(cs[i].pair)[|name| + 1..] == cs[i].pair.value
    {
      MatchesJoined(cs[i].pair, name);
      HitsByKey(cs[i].pair, name);
    }
    LookupFindsFirst(cs, name);
  }
}
