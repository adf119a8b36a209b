/** The MD5 digest as RFC 1321 defines it, sections 3.1 to 3.5. */
module Md5Spec {

  type word = bv32

  /** The four-word buffer (section 3.3). */
  datatype State = State(a: word, b: word, c: word, d: word)

  const INITIAL := State(0x67452301, 0xefcdab89, 0x98badcfe, 0x10325476)

  // Section 3.4: the auxiliary functions.
  function F(x: word, y: word, z: word): word { (x & y) | (!x & z) }

  function G(x: word, y: word, z: word): word { (x & z) | (y & !z) }

  function H(x: word, y: word, z: word): word { x ^ y ^ z }

  function I(x: word, y: word, z: word): word { y ^ (x | !z) }

  /** Section 2: "+" is addition of words modulo 2^32, and X <<< s a rotation to the left. */
  function Add(x: word, y: word): word { x + y }

  function Rotate(x: word, n: word): word
    requires n < 32
  {
    (x << n) | (x >> (32 - n))
  }

  /** The function, word, rotation and constant of operation `i`, counted from 0. */
  function Auxiliary(i: nat, x: word, y: word, z: word): word {
    if i < 16 then F(x, y, z) else if i < 32 then G(x, y, z) else if i < 48 then H(x, y, z) else I(x, y, z)
  }

  function WordOf(i: nat): (k: nat)
    ensures k < 16
  {
    if i < 16 then i % 16 else if i < 32 then (5 * i + 1) % 16 else if i < 48 then (3 * i + 5) % 16 else 7 * i % 16
  }

  function Rotation(i: nat): (s: word)
    ensures 0 < s < 32
  {
    if i < 16 then (if i % 4 == 0 then 7 else if i % 4 == 1 then 12 else if i % 4 == 2 then 17 else 22)
    else if i < 32 then (if i % 4 == 0 then 5 else if i % 4 == 1 then 9 else if i % 4 == 2 then 14 else 20)
    else if i < 48 then (if i % 4 == 0 then 4 else if i % 4 == 1 then 11 else if i % 4 == 2 then 16 else 23)
    else (if i % 4 == 0 then 6 else if i % 4 == 1 then 10 else if i % 4 == 2 then 15 else 21)
  }

  /** The table T: entry `i` is the integer part of 2^32 times the absolute sine of `i + 1`. */
  function Sine(i: nat): word {
    if i < 16 then Sine1(i) else if i < 32 then Sine2(i) else if i < 48 then Sine3(i) else Sine4(i)
  }

  function Sine1(i: nat): word {
    match i
    case 0 => 0xd76aa478
    case 1 => 0xe8c7b756
    case 2 => 0x242070db
    case 3 => 0xc1bdceee
    case 4 => 0xf57c0faf
    case 5 => 0x4787c62a
    case 6 => 0xa8304613
    case 7 => 0xfd469501
    case 8 => 0x698098d8
    case 9 => 0x8b44f7af
    case 10 => 0xffff5bb1
    case 11 => 0x895cd7be
    case 12 => 0x6b901122
    case 13 => 0xfd987193
    case 14 => 0xa679438e
    case 15 => 0x49b40821
    case _ => 0
  }

  function Sine2(i: nat): word {
    match i
    case 16 => 0xf61e2562
    case 17 => 0xc040b340
    case 18 => 0x265e5a51
    case 19 => 0xe9b6c7aa
    case 20 => 0xd62f105d
    case 21 => 0x02441453
    case 22 => 0xd8a1e681
    case 23 => 0xe7d3fbc8
    case 24 => 0x21e1cde6
    case 25 => 0xc33707d6
    case 26 => 0xf4d50d87
    case 27 => 0x455a14ed
    case 28 => 0xa9e3e905
    case 29 => 0xfcefa3f8
    case 30 => 0x676f02d9
    case 31 => 0x8d2a4c8a
    case _ => 0
  }

  function Sine3(i: nat): word {
    match i
    case 32 => 0xfffa3942
    case 33 => 0x8771f681
    case 34 => 0x6d9d6122
    case 35 => 0xfde5380c
    case 36 => 0xa4beea44
    case 37 => 0x4bdecfa9
    case 38 => 0xf6bb4b60
    case 39 => 0xbebfbc70
    case 40 => 0x289b7ec6
    case 41 => 0xeaa127fa
    case 42 => 0xd4ef3085
    case 43 => 0x04881d05
    case 44 => 0xd9d4d039
    case 45 => 0xe6db99e5
    case 46 => 0x1fa27cf8
    case 47 => 0xc4ac5665
    case _ => 0
  }

  function Sine4(i: nat): word {
    match i
    case 48 => 0xf4292244
    case 49 => 0x432aff97
    case 50 => 0xab9423a7
    case 51 => 0xfc93a039
    case 52 => 0x655b59c3
    case 53 => 0x8f0ccc92
    case 54 => 0xffeff47d
    case 55 => 0x85845dd1
    case 56 => 0x6fa87e4f
    case 57 => 0xfe2ce6e0
    case 58 => 0xa3014314
    case 59 => 0x4e0811a1
    case 60 => 0xf7537e82
    case 61 => 0xbd3af235
    case 62 => 0x2ad7d2bb
    case 63 => 0xeb86d391
    case _ => 0
  }

  /** a + f + x + t; the words may be added in any grouping. */
  function Sum(a: word, f: word, x: word, t: word): (r: word)
    ensures r == a + ((f + x) + t)
  {
    ((a + f) + x) + t
  }

  /** One operation, a = b + ((a + f(b, c, d) + X[k] + T[i]) <<< s), with the registers moved on
    * so that the next one to be computed is in front.
    */
  function Operation(s: State, x: seq<word>, i: nat): State
    requires |x| == 16
  {
    var sum := Sum(s.a, Auxiliary(i, s.b, s.c, s.d), x[WordOf(i)], Sine(i));
    State(s.d, Add(s.b, Rotate(sum, Rotation(i))), s.b, s.c)
  }

  function Operations(s: State, x: seq<word>, n: nat): State
    requires |x| == 16
  {
    if n == 0 then s else Operation(Operations(s, x, n - 1), x, n - 1)
  }

  /** The processing of one 16-word block. */
  function Compress(s: State, x: seq<word>): State
    requires |x| == 16
  {
    var t := Operations(s, x, 64);
    State(Add(s.a, t.a), Add(s.b, t.b), Add(s.c, t.c), Add(s.d, t.d))
  }

  function Absorb(s: State, ws: seq<word>): State
    requires |ws| % 16 == 0
  {
    if ws == [] then s else Compress(Absorb(s, ws[..|ws| - 16]), ws[|ws| - 16..])
  }

  /** Section 2: four bytes make a word, low-order byte first. */
  function Word(b0: bv8, b1: bv8, b2: bv8, b3: bv8): word {
    ((b3 as word) << 24) | ((b2 as word) << 16) | ((b1 as word) << 8) | (b0 as word)
  }

  function Words(bs: seq<bv8>): (ws: seq<word>)
    requires |bs| % 4 == 0
    ensures |ws| == |bs| / 4
  {
    seq(|bs| / 4, i requires 0 <= i < |bs| / 4 => Word(bs[4 * i], bs[4 * i + 1], bs[4 * i + 2], bs[4 * i + 3]))
  }

  /** Section 3.1: a single "1" bit, then "0" bits up to 448 bits modulo 512. */
  function Padding(length: nat): (p: seq<bv8>)
    ensures (length + |p|) % 64 == 56 && 1 <= |p| <= 64
  {
    [0x80] + seq((119 - length % 64) % 64, _ => 0)
  }

  /** Section 3.2: the length in bits as two words, low-order word first. */
  function LengthWords(bits: nat): seq<word> {
    [(bits % 0x1_0000_0000) as word, (bits / 0x1_0000_0000 % 0x1_0000_0000) as word]
  }

  function WordBytes(w: word): seq<bv8> {
    [(w & 0xFF) as bv8, ((w >> 8) & 0xFF) as bv8, ((w >> 16) & 0xFF) as bv8, ((w >> 24) & 0xFF) as bv8]
  }

  /** Section 3.5: the buffer, low-order byte of A first. */
  function Output(s: State): seq<bv8> {
    WordBytes(s.a) + WordBytes(s.b) + WordBytes(s.c) + WordBytes(s.d)
  }

  function Padded(message: seq<bv8>): (p: seq<bv8>)
    ensures |p| % 64 == 56
  {
    message + Padding(|message|)
  }

  /** The padded message and its length, as words: whole 16-word blocks. */
  function MessageWords(message: seq<bv8>): (ws: seq<word>)
    ensures |ws| % 16 == 0
  {
    var p := Padded(message);
    Blocks(|p|);
    Words(p) + LengthWords(8 * |message|)
  }

  lemma Blocks(n: nat)
    requires n % 64 == 56
    ensures n % 4 == 0 && (n / 4 + 2) % 16 == 0
  {
  }

  function Digest(message: seq<bv8>): seq<bv8> {
    Output(Absorb(INITIAL, MessageWords(message)))
  }

  // ------------------------------------------------------------------ bit by bit

  /** Bit `i` of a word, counted from the low end. */
  function Bit(x: word, i: word): word
    requires i < 32
  {
    (x >> i) & 1
  }

  /** Shifted up by `n`, bit `i` becomes bit `i + n`, and the bits below are 0. */
  lemma ShiftedUp(x: word, n: word, i: word)
    requires n < 32 && i < 32
    ensures i + n < 32 ==> Bit(x << n, i + n) == Bit(x, i)
    ensures i < n ==> Bit(x << n, i) == 0
  {
  }

  /** Shifted down by `32 - n`, the top `n` bits are at the bottom, and the bits above are 0. */
  lemma ShiftedDown(x: word, n: word, i: word)
    requires n < 32 && i < 32
    ensures i + n >= 32 ==> Bit(x >> (32 - n), i + n - 32) == Bit(x, i)
    ensures i >= n ==> Bit(x >> (32 - n), i) == 0
  {
  }

  lemma OfEither(a: word, b: word, i: word)
    requires i < 32
    ensures Bit(b, i) == 0 ==> Bit(a | b, i) == Bit(a, i)
    ensures Bit(a, i) == 0 ==> Bit(a | b, i) == Bit(b, i)
  {
  }

  /** A rotation by `n` moves bit `i` up by `n` places... */
  lemma RotateMovesBits(x: word, n: word, i: word)
    requires n < 32 && i < 32 && i + n < 32
    ensures Bit(Rotate(x, n), i + n) == Bit(x, i)
  {
    ShiftedUp(x, n, i);
    ShiftedDown(x, n, i + n);
    OfEither(x << n, x >> (32 - n), i + n);
    hide Bit;
  }

  /** ...and around. */
  lemma RotateCarriesOver(x: word, n: word, i: word)
    requires n < 32 && i < 32 && i + n >= 32
    ensures Bit(Rotate(x, n), i + n - 32) == Bit(x, i)
  {
    ShiftedDown(x, n, i);
    ShiftedUp(x, n, i + n - 32);
    OfEither(x << n, x >> (32 - n), i + n - 32);
    hide Bit;
  }

  /** Section 3.4, on any bits `m` where x, y and z do not vary. F is y where x is set and z elsewhere, */
  lemma BitsOfF(x: word, y: word, z: word, m: word)
    ensures x & m == m ==> F(x, y, z) & m == y & m
    ensures x & m == 0 ==> F(x, y, z) & m == z & m
  {
  }

  /** G is x where z is set and y elsewhere, */
  lemma BitsOfG(x: word, y: word, z: word, m: word)
    ensures z & m == m ==> G(x, y, z) & m == x & m
    ensures z & m == 0 ==> G(x, y, z) & m == y & m
  {
  }

  /** H is z where x and y agree and its opposite elsewhere, */
  lemma BitsOfH(x: word, y: word, z: word, m: word)
    ensures x & m == y & m ==> H(x, y, z) & m == z & m
    ensures x & m == !y & m ==> H(x, y, z) & m == !z & m
  {
  }

  /** and I is y where z is set and x is not, and the opposite of y where z is not set or x is. */
  lemma BitsOfI(x: word, y: word, z: word, m: word)
    ensures z & m == m && x & m == 0 ==> I(x, y, z) & m == y & m
    ensures z & m == 0 ==> I(x, y, z) & m == !y & m
    ensures x & m == m ==> I(x, y, z) & m == !y & m
  {
    EitherOrNot(x, z, m);
    Flipped(y, x | !z, m);
  }

  lemma Flipped(y: word, w: word, m: word)
    ensures w & m == 0 ==> (y ^ w) & m == y & m
    ensures w & m == m ==> (y ^ w) & m == !y & m
  {
  }

  lemma EitherOrNot(x: word, z: word, m: word)
    ensures z & m == m && x & m == 0 ==> (x | !z) & m == 0
    ensures z & m == 0 || x & m == m ==> (x | !z) & m == m
  {
  }

  /** The bytes of a word are its digits to the base 256, low-order byte first, on the way in and on the way out. */
  lemma WordDigits(b0: bv8, b1: bv8, b2: bv8, b3: bv8)
    ensures var w := Word(b0, b1, b2, b3);
      && w == b0 as word + 0x100 * (b1 as word) + 0x1_0000 * (b2 as word) + 0x100_0000 * (b3 as word)
      && WordBytes(w) == [b0, b1, b2, b3]
  {
  }

  /** Section 3.3: the bytes of the initial buffer. */
  lemma InitialBytes()
    ensures Output(INITIAL) == [0x01, 0x23, 0x45, 0x67, 0x89, 0xab, 0xcd, 0xef,
                                0xfe, 0xdc, 0xba, 0x98, 0x76, 0x54, 0x32, 0x10]
  {
  }

  /** Section 3.1: the first bit of the padding is a one, and no other. */
  lemma PaddingBits(length: nat, k: nat)
    requires k < |Padding(length)|
    ensures Padding(length)[k] == if k == 0 then 0x80 else 0
  {
  }

  // ------------------------------------------------------------------ laws

  lemma WordsAppend(a: seq<bv8>, b: seq<bv8>)
    requires |a| % 4 == 0 && |b| % 4 == 0
    ensures |a + b| % 4 == 0
    ensures Words(a + b) == Words(a) + Words(b)
  {
    assert |a + b| % 4 == 0 && |a + b| / 4 == |a| / 4 + |b| / 4;
    forall i | 0 <= i < |a + b| / 4
      ensures Words(a + b)[i] == (Words(a) + Words(b))[i]
    {
      if i >= |a| / 4 {
        var j := i - |a| / 4;
        assert 4 * i == |a| + 4 * j;
      }
    }
  }

  lemma AbsorbBlock(s: State, ws: seq<word>, block: seq<word>)
    requires |ws| % 16 == 0 && |block| == 16
    ensures Absorb(s, ws + block) == Compress(Absorb(s, ws), block)
  {
    assert (ws + block)[..|ws + block| - 16] == ws && (ws + block)[|ws + block| - 16..] == block;
  }
}
