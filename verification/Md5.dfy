/** The MD5 implementation: a context that takes a message in pieces of any size. */
module Md5 {
  import opened Basics
  import opened Md5Spec

  /** The first statement of a step macro: `a += f + x + ac`. */
  function Term(a: word, f: word, x: word, ac: word): word {
    a + ((f + x) + ac)
  }

  lemma TermIsSum(a: word, f: word, x: word, ac: word)
    ensures Term(a, f, x, ac) == Sum(a, f, x, ac)
  {
  }

  lemma AddCommutes(x: word, y: word)
    ensures Add(x, y) == Add(y, x)
  {
  }

  // The step macros.
  function FF(a: word, b: word, c: word, d: word, x: word, s: word, ac: word): word
    requires s < 32
  {
    Add(Rotate(Term(a, F(b, c, d), x, ac), s), b)
  }

  function GG(a: word, b: word, c: word, d: word, x: word, s: word, ac: word): word
    requires s < 32
  {
    Add(Rotate(Term(a, G(b, c, d), x, ac), s), b)
  }

  function HH(a: word, b: word, c: word, d: word, x: word, s: word, ac: word): word
    requires s < 32
  {
    Add(Rotate(Term(a, H(b, c, d), x, ac), s), b)
  }

  function II(a: word, b: word, c: word, d: word, x: word, s: word, ac: word): word
    requires s < 32
  {
    Add(Rotate(Term(a, I(b, c, d), x, ac), s), b)
  }

  /** A step macro by round. */
  function Macro(i: nat, a: word, b: word, c: word, d: word, x: word, s: word, ac: word): word
    requires s < 32
  {
    if i < 16 then FF(a, b, c, d, x, s, ac) else if i < 32 then GG(a, b, c, d, x, s, ac)
    else if i < 48 then HH(a, b, c, d, x, s, ac) else II(a, b, c, d, x, s, ac)
  }

  /** One step macro does one operation of the standard. */
  lemma MacroIsOperation(s: State, x: seq<word>, i: nat)
    requires |x| == 16
    ensures Operation(s, x, i) == State(s.d, Macro(i, s.a, s.b, s.c, s.d, x[WordOf(i)], Rotation(i), Sine(i)), s.b, s.c)
  {
    hide Rotate, Add, Auxiliary, Macro, Sine, Rotation, WordOf, Sum;
    MacroRotatesSum(i, s.a, s.b, s.c, s.d, x[WordOf(i)], Rotation(i), Sine(i));
  }

  lemma MacroRotatesSum(i: nat, a: word, b: word, c: word, d: word, x: word, s: word, ac: word)
    requires s < 32
    ensures Macro(i, a, b, c, d, x, s, ac) == Add(b, Rotate(Sum(a, Auxiliary(i, b, c, d), x, ac), s))
  {
    assert i < 16 ==> Macro(i, a, b, c, d, x, s, ac) == FF(a, b, c, d, x, s, ac);
    assert 16 <= i < 32 ==> Macro(i, a, b, c, d, x, s, ac) == GG(a, b, c, d, x, s, ac);
    assert 32 <= i < 48 ==> Macro(i, a, b, c, d, x, s, ac) == HH(a, b, c, d, x, s, ac);
    assert 48 <= i ==> Macro(i, a, b, c, d, x, s, ac) == II(a, b, c, d, x, s, ac);
    hide Rotate, Add, F, G, H, I, Sum, Term, Macro;
    TermIsSum(a, Auxiliary(i, b, c, d), x, ac);
    AddCommutes(b, Rotate(Sum(a, Auxiliary(i, b, c, d), x, ac), s));
  }

  /** Four step macros in a row, with the registers changing places, do four operations. */
  lemma FourOperations(start: State, x: seq<word>, i: nat, s: State, a: word, d: word, c: word, b: word)
    requires |x| == 16 && s == Operations(start, x, i)
    requires a == Macro(i, s.a, s.b, s.c, s.d, x[WordOf(i)], Rotation(i), Sine(i))
    requires d == Macro(i + 1, s.d, a, s.b, s.c, x[WordOf(i + 1)], Rotation(i + 1), Sine(i + 1))
    requires c == Macro(i + 2, s.c, d, a, s.b, x[WordOf(i + 2)], Rotation(i + 2), Sine(i + 2))
    requires b == Macro(i + 3, s.b, c, d, a, x[WordOf(i + 3)], Rotation(i + 3), Sine(i + 3))
    ensures Operations(start, x, i + 4) == State(a, b, c, d)
  {
    hide Macro, Sine, Rotation, WordOf, Operation, Operations;
    MacroIsOperation(s, x, i);
    NextOperation(start, x, i);
    MacroIsOperation(State(s.d, a, s.b, s.c), x, i + 1);
    NextOperation(start, x, i + 1);
    MacroIsOperation(State(s.c, d, a, s.b), x, i + 2);
    NextOperation(start, x, i + 2);
    MacroIsOperation(State(s.b, c, d, a), x, i + 3);
    NextOperation(start, x, i + 3);
  }

  lemma NextOperation(start: State, x: seq<word>, n: nat)
    requires |x| == 16
    ensures Operations(start, x, n + 1) == Operation(Operations(start, x, n), x, n)
  {
    hide Operation;
  }

  lemma FourFF(start: State, x: seq<word>, i: nat, s: State, a: word, d: word, c: word, b: word)
    requires |x| == 16 && s == Operations(start, x, i) && 0 <= i <= 12
    requires a == FF(s.a, s.b, s.c, s.d, x[WordOf(i)], Rotation(i), Sine(i))
    requires d == FF(s.d, a, s.b, s.c, x[WordOf(i + 1)], Rotation(i + 1), Sine(i + 1))
    requires c == FF(s.c, d, a, s.b, x[WordOf(i + 2)], Rotation(i + 2), Sine(i + 2))
    requires b == FF(s.b, c, d, a, x[WordOf(i + 3)], Rotation(i + 3), Sine(i + 3))
    ensures Operations(start, x, i + 4) == State(a, b, c, d)
  {
    hide Operations, FF, WordOf, Rotation, Sine;
    FourOperations(start, x, i, s, a, d, c, b);
  }

  lemma FourGG(start: State, x: seq<word>, i: nat, s: State, a: word, d: word, c: word, b: word)
    requires |x| == 16 && s == Operations(start, x, i) && 16 <= i <= 28
    requires a == GG(s.a, s.b, s.c, s.d, x[WordOf(i)], Rotation(i), Sine(i))
    requires d == GG(s.d, a, s.b, s.c, x[WordOf(i + 1)], Rotation(i + 1), Sine(i + 1))
    requires c == GG(s.c, d, a, s.b, x[WordOf(i + 2)], Rotation(i + 2), Sine(i + 2))
    requires b == GG(s.b, c, d, a, x[WordOf(i + 3)], Rotation(i + 3), Sine(i + 3))
    ensures Operations(start, x, i + 4) == State(a, b, c, d)
  {
    hide Operations, GG, WordOf, Rotation, Sine;
    FourOperations(start, x, i, s, a, d, c, b);
  }

  lemma FourHH(start: State, x: seq<word>, i: nat, s: State, a: word, d: word, c: word, b: word)
    requires |x| == 16 && s == Operations(start, x, i) && 32 <= i <= 44
    requires a == HH(s.a, s.b, s.c, s.d, x[WordOf(i)], Rotation(i), Sine(i))
    requires d == HH(s.d, a, s.b, s.c, x[WordOf(i + 1)], Rotation(i + 1), Sine(i + 1))
    requires c == HH(s.c, d, a, s.b, x[WordOf(i + 2)], Rotation(i + 2), Sine(i + 2))
    requires b == HH(s.b, c, d, a, x[WordOf(i + 3)], Rotation(i + 3), Sine(i + 3))
    ensures Operations(start, x, i + 4) == State(a, b, c, d)
  {
    hide Operations, HH, WordOf, Rotation, Sine;
    FourOperations(start, x, i, s, a, d, c, b);
  }

  lemma FourII(start: State, x: seq<word>, i: nat, s: State, a: word, d: word, c: word, b: word)
    requires |x| == 16 && s == Operations(start, x, i) && 48 <= i <= 60
    requires a == II(s.a, s.b, s.c, s.d, x[WordOf(i)], Rotation(i), Sine(i))
    requires d == II(s.d, a, s.b, s.c, x[WordOf(i + 1)], Rotation(i + 1), Sine(i + 1))
    requires c == II(s.c, d, a, s.b, x[WordOf(i + 2)], Rotation(i + 2), Sine(i + 2))
    requires b == II(s.b, c, d, a, x[WordOf(i + 3)], Rotation(i + 3), Sine(i + 3))
    ensures Operations(start, x, i + 4) == State(a, b, c, d)
  {
    hide Operations, II, WordOf, Rotation, Sine;
    FourOperations(start, x, i, s, a, d, c, b);
  }

  /** `Transform`: the sixty-four steps, unrolled. */
  method Transform(buf: array<word>, x: array<word>)
    requires buf.Length == 4 && x.Length == 16 && buf != x
    modifies buf
    ensures Stored(buf) == Compress(old(Stored(buf)), x[..])
  {
    hide Operations, Add;
    var a, b, c, d := Rounds(buf[0], buf[1], buf[2], buf[3], x);
    buf[0] := Add(buf[0], a);
    buf[1] := Add(buf[1], b);
    buf[2] := Add(buf[2], c);
    buf[3] := Add(buf[3], d);
  }

  function Stored(buf: array<word>): State
    requires buf.Length == 4
    reads buf
  {
    State(buf[0], buf[1], buf[2], buf[3])
  }

  method Rounds(a0: word, b0: word, c0: word, d0: word, x: array<word>) returns (a: word, b: word, c: word, d: word)
    requires x.Length == 16
    ensures State(a, b, c, d) == Operations(State(a0, b0, c0, d0), x[..], 64)
  {
    hide Operations;
    a, b, c, d := a0, b0, c0, d0;
    ghost var start := State(a, b, c, d);
    NoOperations(start, x[..]);
    a, b, c, d := Round1(State(a, b, c, d), x[..], start);
    a, b, c, d := Round2(State(a, b, c, d), x[..], start);
    a, b, c, d := Round3(State(a, b, c, d), x[..], start);
    a, b, c, d := Round4(State(a, b, c, d), x[..], start);
  }

  lemma NoOperations(s: State, x: seq<word>)
    requires |x| == 16
    ensures Operations(s, x, 0) == s
  {
  }

  /** Round 1. */
  method Round1(s: State, x: seq<word>, ghost start: State) returns (a: word, b: word, c: word, d: word)
    requires |x| == 16 && s == Operations(start, x, 0)
    ensures State(a, b, c, d) == Operations(start, x, 16)
  {
    hide Operations, Macro, FF, WordOf, Rotation, Sine;
    Constants1();
    a, b, c, d := s.a, s.b, s.c, s.d;
    ghost var s0 := State(a, b, c, d);
    a := FF(a, b, c, d, x[0], 7, 3614090360);
    d := FF(d, a, b, c, x[1], 12, 3905402710);
    c := FF(c, d, a, b, x[2], 17, 606105819);
    b := FF(b, c, d, a, x[3], 22, 3250441966);
    FourFF(start, x, 0, s0, a, d, c, b);
    ghost var s1 := State(a, b, c, d);
    a := FF(a, b, c, d, x[4], 7, 4118548399);
    d := FF(d, a, b, c, x[5], 12, 1200080426);
    c := FF(c, d, a, b, x[6], 17, 2821735955);
    b := FF(b, c, d, a, x[7], 22, 4249261313);
    FourFF(start, x, 4, s1, a, d, c, b);
    ghost var s2 := State(a, b, c, d);
    a := FF(a, b, c, d, x[8], 7, 1770035416);
    d := FF(d, a, b, c, x[9], 12, 2336552879);
    c := FF(c, d, a, b, x[10], 17, 4294925233);
    b := FF(b, c, d, a, x[11], 22, 2304563134);
    FourFF(start, x, 8, s2, a, d, c, b);
    ghost var s3 := State(a, b, c, d);
    a := FF(a, b, c, d, x[12], 7, 1804603682);
    d := FF(d, a, b, c, x[13], 12, 4254626195);
    c := FF(c, d, a, b, x[14], 17, 2792965006);
    b := FF(b, c, d, a, x[15], 22, 1236535329);
    FourFF(start, x, 12, s3, a, d, c, b);
  }

  /** Round 2. */
  method Round2(s: State, x: seq<word>, ghost start: State) returns (a: word, b: word, c: word, d: word)
    requires |x| == 16 && s == Operations(start, x, 16)
    ensures State(a, b, c, d) == Operations(start, x, 32)
  {
    hide Operations, Macro, GG, WordOf, Rotation, Sine;
    Constants2();
    a, b, c, d := s.a, s.b, s.c, s.d;
    ghost var s0 := State(a, b, c, d);
    a := GG(a, b, c, d, x[1], 5, 4129170786);
    d := GG(d, a, b, c, x[6], 9, 3225465664);
    c := GG(c, d, a, b, x[11], 14, 643717713);
    b := GG(b, c, d, a, x[0], 20, 3921069994);
    FourGG(start, x, 16, s0, a, d, c, b);
    ghost var s1 := State(a, b, c, d);
    a := GG(a, b, c, d, x[5], 5, 3593408605);
    d := GG(d, a, b, c, x[10], 9, 38016083);
    c := GG(c, d, a, b, x[15], 14, 3634488961);
    b := GG(b, c, d, a, x[4], 20, 3889429448);
    FourGG(start, x, 20, s1, a, d, c, b);
    ghost var s2 := State(a, b, c, d);
    a := GG(a, b, c, d, x[9], 5, 568446438);
    d := GG(d, a, b, c, x[14], 9, 3275163606);
    c := GG(c, d, a, b, x[3], 14, 4107603335);
    b := GG(b, c, d, a, x[8], 20, 1163531501);
    FourGG(start, x, 24, s2, a, d, c, b);
    ghost var s3 := State(a, b, c, d);
    a := GG(a, b, c, d, x[13], 5, 2850285829);
    d := GG(d, a, b, c, x[2], 9, 4243563512);
    c := GG(c, d, a, b, x[7], 14, 1735328473);
    b := GG(b, c, d, a, x[12], 20, 2368359562);
    FourGG(start, x, 28, s3, a, d, c, b);
  }

  /** Round 3. */
  method Round3(s: State, x: seq<word>, ghost start: State) returns (a: word, b: word, c: word, d: word)
    requires |x| == 16 && s == Operations(start, x, 32)
    ensures State(a, b, c, d) == Operations(start, x, 48)
  {
    hide Operations, Macro, HH, WordOf, Rotation, Sine;
    Constants3();
    a, b, c, d := s.a, s.b, s.c, s.d;
    ghost var s0 := State(a, b, c, d);
    a := HH(a, b, c, d, x[5], 4, 4294588738);
    d := HH(d, a, b, c, x[8], 11, 2272392833);
    c := HH(c, d, a, b, x[11], 16, 1839030562);
    b := HH(b, c, d, a, x[14], 23, 4259657740);
    FourHH(start, x, 32, s0, a, d, c, b);
    ghost var s1 := State(a, b, c, d);
    a := HH(a, b, c, d, x[1], 4, 2763975236);
    d := HH(d, a, b, c, x[4], 11, 1272893353);
    c := HH(c, d, a, b, x[7], 16, 4139469664);
    b := HH(b, c, d, a, x[10], 23, 3200236656);
    FourHH(start, x, 36, s1, a, d, c, b);
    ghost var s2 := State(a, b, c, d);
    a := HH(a, b, c, d, x[13], 4, 681279174);
    d := HH(d, a, b, c, x[0], 11, 3936430074);
    c := HH(c, d, a, b, x[3], 16, 3572445317);
    b := HH(b, c, d, a, x[6], 23, 76029189);
    FourHH(start, x, 40, s2, a, d, c, b);
    ghost var s3 := State(a, b, c, d);
    a := HH(a, b, c, d, x[9], 4, 3654602809);
    d := HH(d, a, b, c, x[12], 11, 3873151461);
    c := HH(c, d, a, b, x[15], 16, 530742520);
    b := HH(b, c, d, a, x[2], 23, 3299628645);
    FourHH(start, x, 44, s3, a, d, c, b);
  }

  /** Round 4. */
  method Round4(s: State, x: seq<word>, ghost start: State) returns (a: word, b: word, c: word, d: word)
    requires |x| == 16 && s == Operations(start, x, 48)
    ensures State(a, b, c, d) == Operations(start, x, 64)
  {
    hide Operations, Macro, II, WordOf, Rotation, Sine;
    Constants4();
    a, b, c, d := s.a, s.b, s.c, s.d;
    ghost var s0 := State(a, b, c, d);
    a := II(a, b, c, d, x[0], 6, 4096336452);
    d := II(d, a, b, c, x[7], 10, 1126891415);
    c := II(c, d, a, b, x[14], 15, 2878612391);
    b := II(b, c, d, a, x[5], 21, 4237533241);
    FourII(start, x, 48, s0, a, d, c, b);
    ghost var s1 := State(a, b, c, d);
    a := II(a, b, c, d, x[12], 6, 1700485571);
    d := II(d, a, b, c, x[3], 10, 2399980690);
    c := II(c, d, a, b, x[10], 15, 4293915773);
    b := II(b, c, d, a, x[1], 21, 2240044497);
    FourII(start, x, 52, s1, a, d, c, b);
    ghost var s2 := State(a, b, c, d);
    a := II(a, b, c, d, x[8], 6, 1873313359);
    d := II(d, a, b, c, x[15], 10, 4264355552);
    c := II(c, d, a, b, x[6], 15, 2734768916);
    b := II(b, c, d, a, x[13], 21, 1309151649);
    FourII(start, x, 56, s2, a, d, c, b);
    ghost var s3 := State(a, b, c, d);
    a := II(a, b, c, d, x[4], 6, 4149444226);
    d := II(d, a, b, c, x[11], 10, 3174756917);
    c := II(c, d, a, b, x[2], 15, 718787259);
    b := II(b, c, d, a, x[9], 21, 3951481745);
    FourII(start, x, 60, s3, a, d, c, b);
  }

  /** The words, rotations and constants written out in round 1 are those of the table. */
  lemma Constants1()
    ensures WordOf(0) == 0 && Rotation(0) == 7 && Sine(0) == 3614090360
    ensures WordOf(1) == 1 && Rotation(1) == 12 && Sine(1) == 3905402710
    ensures WordOf(2) == 2 && Rotation(2) == 17 && Sine(2) == 606105819
    ensures WordOf(3) == 3 && Rotation(3) == 22 && Sine(3) == 3250441966
    ensures WordOf(4) == 4 && Rotation(4) == 7 && Sine(4) == 4118548399
    ensures WordOf(5) == 5 && Rotation(5) == 12 && Sine(5) == 1200080426
    ensures WordOf(6) == 6 && Rotation(6) == 17 && Sine(6) == 2821735955
    ensures WordOf(7) == 7 && Rotation(7) == 22 && Sine(7) == 4249261313
    ensures WordOf(8) == 8 && Rotation(8) == 7 && Sine(8) == 1770035416
    ensures WordOf(9) == 9 && Rotation(9) == 12 && Sine(9) == 2336552879
    ensures WordOf(10) == 10 && Rotation(10) == 17 && Sine(10) == 4294925233
    ensures WordOf(11) == 11 && Rotation(11) == 22 && Sine(11) == 2304563134
    ensures WordOf(12) == 12 && Rotation(12) == 7 && Sine(12) == 1804603682
    ensures WordOf(13) == 13 && Rotation(13) == 12 && Sine(13) == 4254626195
    ensures WordOf(14) == 14 && Rotation(14) == 17 && Sine(14) == 2792965006
    ensures WordOf(15) == 15 && Rotation(15) == 22 && Sine(15) == 1236535329
  {
    hide Sine2, Sine3, Sine4;
  }

  /** The words, rotations and constants written out in round 2 are those of the table. */
  lemma Constants2()
    ensures WordOf(16) == 1 && Rotation(16) == 5 && Sine(16) == 4129170786
    ensures WordOf(17) == 6 && Rotation(17) == 9 && Sine(17) == 3225465664
    ensures WordOf(18) == 11 && Rotation(18) == 14 && Sine(18) == 643717713
    ensures WordOf(19) == 0 && Rotation(19) == 20 && Sine(19) == 3921069994
    ensures WordOf(20) == 5 && Rotation(20) == 5 && Sine(20) == 3593408605
    ensures WordOf(21) == 10 && Rotation(21) == 9 && Sine(21) == 38016083
    ensures WordOf(22) == 15 && Rotation(22) == 14 && Sine(22) == 3634488961
    ensures WordOf(23) == 4 && Rotation(23) == 20 && Sine(23) == 3889429448
    ensures WordOf(24) == 9 && Rotation(24) == 5 && Sine(24) == 568446438
    ensures WordOf(25) == 14 && Rotation(25) == 9 && Sine(25) == 3275163606
    ensures WordOf(26) == 3 && Rotation(26) == 14 && Sine(26) == 4107603335
    ensures WordOf(27) == 8 && Rotation(27) == 20 && Sine(27) == 1163531501
    ensures WordOf(28) == 13 && Rotation(28) == 5 && Sine(28) == 2850285829
    ensures WordOf(29) == 2 && Rotation(29) == 9 && Sine(29) == 4243563512
    ensures WordOf(30) == 7 && Rotation(30) == 14 && Sine(30) == 1735328473
    ensures WordOf(31) == 12 && Rotation(31) == 20 && Sine(31) == 2368359562
  {
    hide Sine1, Sine3, Sine4;
  }

  /** The words, rotations and constants written out in round 3 are those of the table. */
  lemma Constants3()
    ensures WordOf(32) == 5 && Rotation(32) == 4 && Sine(32) == 4294588738
    ensures WordOf(33) == 8 && Rotation(33) == 11 && Sine(33) == 2272392833
    ensures WordOf(34) == 11 && Rotation(34) == 16 && Sine(34) == 1839030562
    ensures WordOf(35) == 14 && Rotation(35) == 23 && Sine(35) == 4259657740
    ensures WordOf(36) == 1 && Rotation(36) == 4 && Sine(36) == 2763975236
    ensures WordOf(37) == 4 && Rotation(37) == 11 && Sine(37) == 1272893353
    ensures WordOf(38) == 7 && Rotation(38) == 16 && Sine(38) == 4139469664
    ensures WordOf(39) == 10 && Rotation(39) == 23 && Sine(39) == 3200236656
    ensures WordOf(40) == 13 && Rotation(40) == 4 && Sine(40) == 681279174
    ensures WordOf(41) == 0 && Rotation(41) == 11 && Sine(41) == 3936430074
    ensures WordOf(42) == 3 && Rotation(42) == 16 && Sine(42) == 3572445317
    ensures WordOf(43) == 6 && Rotation(43) == 23 && Sine(43) == 76029189
    ensures WordOf(44) == 9 && Rotation(44) == 4 && Sine(44) == 3654602809
    ensures WordOf(45) == 12 && Rotation(45) == 11 && Sine(45) == 3873151461
    ensures WordOf(46) == 15 && Rotation(46) == 16 && Sine(46) == 530742520
    ensures WordOf(47) == 2 && Rotation(47) == 23 && Sine(47) == 3299628645
  {
    hide Sine1, Sine2, Sine4;
  }

  /** The words, rotations and constants written out in round 4 are those of the table. */
  lemma Constants4()
    ensures WordOf(48) == 0 && Rotation(48) == 6 && Sine(48) == 4096336452
    ensures WordOf(49) == 7 && Rotation(49) == 10 && Sine(49) == 1126891415
    ensures WordOf(50) == 14 && Rotation(50) == 15 && Sine(50) == 2878612391
    ensures WordOf(51) == 5 && Rotation(51) == 21 && Sine(51) == 4237533241
    ensures WordOf(52) == 12 && Rotation(52) == 6 && Sine(52) == 1700485571
    ensures WordOf(53) == 3 && Rotation(53) == 10 && Sine(53) == 2399980690
    ensures WordOf(54) == 10 && Rotation(54) == 15 && Sine(54) == 4293915773
    ensures WordOf(55) == 1 && Rotation(55) == 21 && Sine(55) == 2240044497
    ensures WordOf(56) == 8 && Rotation(56) == 6 && Sine(56) == 1873313359
    ensures WordOf(57) == 15 && Rotation(57) == 10 && Sine(57) == 4264355552
    ensures WordOf(58) == 6 && Rotation(58) == 15 && Sine(58) == 2734768916
    ensures WordOf(59) == 13 && Rotation(59) == 21 && Sine(59) == 1309151649
    ensures WordOf(60) == 4 && Rotation(60) == 6 && Sine(60) == 4149444226
    ensures WordOf(61) == 11 && Rotation(61) == 10 && Sine(61) == 3174756917
    ensures WordOf(62) == 2 && Rotation(62) == 15 && Sine(62) == 718787259
    ensures WordOf(63) == 9 && Rotation(63) == 21 && Sine(63) == 3951481745
  {
    hide Sine1, Sine2, Sine3;
  }

  // ------------------------------------------------------------------ the streaming context

  /** The part of a message that fills whole blocks, and what is left over. */
  function Whole(m: seq<bv8>): (w: seq<bv8>)
    ensures |w| % 64 == 0
  {
    m[..|m| - |m| % 64]
  }

  function Rest(m: seq<bv8>): (r: seq<bv8>)
    ensures |r| == |m| % 64
  {
    m[|m| - |m| % 64..]
  }

  function Chained(m: seq<bv8>): State {
    WholeBlocks(|Whole(m)|);
    Absorb(INITIAL, Words(Whole(m)))
  }

  lemma WholeBlocks(n: nat)
    requires n % 64 == 0
    ensures n % 4 == 0 && n / 4 % 16 == 0
  {
    assert n == 4 * (16 * (n / 64));
  }

  /** One byte that does not fill the block. */
  lemma ByteKept(m: seq<bv8>, b: bv8)
    requires |m| % 64 != 63
    ensures Whole(m + [b]) == Whole(m) && Rest(m + [b]) == Rest(m) + [b]
  {
    assert |m + [b]| % 64 == |m| % 64 + 1;
  }

  /** One byte that does. */
  lemma ByteFills(m: seq<bv8>, b: bv8)
    requires |m| % 64 == 63
    ensures Rest(m + [b]) == [] && |Rest(m) + [b]| == 64
    ensures Chained(m + [b]) == Compress(Chained(m), Words(Rest(m) + [b]))
  {
    hide Words, Absorb, Compress;
    var block := Rest(m) + [b];
    assert |m + [b]| % 64 == 0;
    assert Whole(m + [b]) == Whole(m) + block;
    WholeBlocks(|Whole(m)|);
    WordsAppend(Whole(m), block);
    AbsorbBlock(INITIAL, Words(Whole(m)), Words(block));
  }

  /** What the two words of the bit count hold. */
  predicate Counts(i0: uint32, i1: uint32, length: nat) {
    i0 + 0x1_0000_0000 * i1 == Truncated(8 * length)
  }

  function Truncated(bits: nat): nat { bits % 0x1_0000_0000_0000_0000 }

  /** The carry, worked out by hand: `i1` goes up when `i0` comes out smaller, and takes the high bits of the length. */
  lemma Carry(i0: uint32, i1: uint32, length: nat, more: uint32)
    requires Counts(i0, i1, length)
    ensures Counts(Low(i0, more), High(i0, i1, more), length + more)
  {
    hide Low, High, Truncated;
    var upper := i1 + (if Low(i0, more) < i0 then 1 else 0) + more / 0x2000_0000;
    assert i0 + 0x1_0000_0000 * i1 + 8 * more == Low(i0, more) + 0x1_0000_0000 * upper by {
      SplitLength(more);
      LowSum(i0, more);
    }
    ModuloSum(8 * length, 8 * more);
    HighWord(Low(i0, more), upper);
    HighSum(i0, i1, more);
    assert 8 * length + 8 * more == 8 * (length + more);
  }

  /** The new words of the count, by unsigned arithmetic on 32 bits. */
  function Low(i0: uint32, more: uint32): uint32 {
    (i0 + 8 * more % 0x1_0000_0000) % 0x1_0000_0000
  }

  function High(i0: uint32, i1: uint32, more: uint32): uint32 {
    ((if Low(i0, more) < i0 then (i1 + 1) % 0x1_0000_0000 else i1) + more / 0x2000_0000) % 0x1_0000_0000
  }

  lemma SplitLength(more: uint32)
    ensures 8 * more == 0x1_0000_0000 * (more / 0x2000_0000) + 8 * more % 0x1_0000_0000
  {
    assert more == 0x2000_0000 * (more / 0x2000_0000) + more % 0x2000_0000;
  }

  lemma LowSum(i0: uint32, more: uint32)
    ensures i0 + 8 * more % 0x1_0000_0000 == (if Low(i0, more) < i0 then 0x1_0000_0000 else 0) + Low(i0, more)
  {
  }

  lemma HighSum(i0: uint32, i1: uint32, more: uint32)
    ensures High(i0, i1, more) == (i1 + (if Low(i0, more) < i0 then 1 else 0) + more / 0x2000_0000) % 0x1_0000_0000
  {
    hide Low;
  }

  lemma ModuloSum(x: nat, y: nat)
    ensures Truncated(Truncated(x) + y) == Truncated(x + y)
  {
    Multiples(Truncated(x) + y, x / 0x1_0000_0000_0000_0000);
  }

  lemma Multiples(n: nat, q: nat)
    ensures Truncated(n + 0x1_0000_0000_0000_0000 * q) == Truncated(n)
  {
    var r, d := Truncated(n), n / 0x1_0000_0000_0000_0000;
    assert n + 0x1_0000_0000_0000_0000 * q == r + 0x1_0000_0000_0000_0000 * (d + q);
  }

  lemma HighWord(low: uint32, high: nat)
    ensures Truncated(low + 0x1_0000_0000 * high) == low + 0x1_0000_0000 * (high % 0x1_0000_0000)
  {
  }

  /** The place in the block can be read off the low word of the count. */
  lemma Place(i0: uint32, i1: uint32, length: nat)
    requires Counts(i0, i1, length)
    ensures i0 / 8 % 64 == length % 64
    ensures LengthWords(8 * length) == [i0 as word, i1 as word]
  {
    CountWords(i0, i1, length);
  }

  lemma CountWords(i0: uint32, i1: uint32, length: nat)
    requires Counts(i0, i1, length)
    ensures i0 / 8 % 64 == length % 64
    ensures 8 * length % 0x1_0000_0000 == i0 && 8 * length / 0x1_0000_0000 % 0x1_0000_0000 == i1
  {
    var upper := i1 + 0x1_0000_0000 * (8 * length / 0x1_0000_0000_0000_0000);
    CountSplit(i0, i1, length);
    LowWord(i0, upper, 8 * length);
    LowWord(i1, 8 * length / 0x1_0000_0000_0000_0000, upper);
    EighthOf(i0, upper, length);
  }

  lemma CountSplit(i0: uint32, i1: uint32, length: nat)
    requires Counts(i0, i1, length)
    ensures 8 * length == i0 + 0x1_0000_0000 * (i1 + 0x1_0000_0000 * (8 * length / 0x1_0000_0000_0000_0000))
  {
  }

  lemma EighthOf(i0: uint32, upper: nat, length: nat)
    requires 8 * length == i0 + 0x1_0000_0000 * upper
    ensures i0 / 8 % 64 == length % 64
  {
    assert i0 == 8 * (length - 0x2000_0000 * upper);
    assert length == i0 / 8 + 64 * (0x80_0000 * upper);
  }

  lemma LowWord(low: uint32, high: nat, n: nat)
    requires n == low + 0x1_0000_0000 * high
    ensures n / 0x1_0000_0000 == high && n % 0x1_0000_0000 == low
  {
  }

  /** The padding and the saved length finish the last block. */
  lemma LastBlock(message: seq<bv8>)
    ensures var padded := Padded(message);
      |Rest(padded)| == 56 &&
      Absorb(INITIAL, MessageWords(message))
          == Compress(Chained(padded), Words(Rest(padded)) + LengthWords(8 * |message|))
  {
    hide Words, Absorb, Compress, Padding;
    var padded := Padded(message);
    var words := LengthWords(8 * |message|);
    assert padded == Whole(padded) + Rest(padded);
    WholeBlocks(|Whole(padded)|);
    WordsAppend(Whole(padded), Rest(padded));
    assert |words| == 2;
    assert MessageWords(message) == Words(Whole(padded)) + (Words(Rest(padded)) + words);
    AbsorbBlock(INITIAL, Words(Whole(padded)), Words(Rest(padded)) + words);
  }

  const PADDING: seq<bv8> := [0x80] + seq(63, _ => 0)

  lemma PaddingTable(length: nat)
    ensures |PADDING| == 64
    ensures PADDING[..if length % 64 < 56 then 56 - length % 64 else 120 - length % 64] == Padding(length)
  {
  }

  /** `MD5_CTX`. The ghost `message` is everything taken in so far. */
  class Context {
    var i0: uint32
    var i1: uint32
    const buf: array<word>
    const input: array<bv8>
    const digest: array<bv8>
    ghost var message: seq<bv8>

    ghost predicate Shaped()
    {
      buf.Length == 4 && input.Length == 64 && digest.Length == 16 && input != digest
    }

    ghost predicate Valid()
      reads this, buf, input
    {
      Shaped() && Counts(i0, i1, |message|) && Absorbed()
    }

    /** The whole blocks are in `buf`, the rest at the front of `input`. */
    ghost predicate Absorbed()
      requires Shaped()
      reads this, buf, input
    {
      Stored(buf) == Chained(message) && input[..|message| % 64] == Rest(message)
    }

    constructor ()
      ensures Valid() && message == []
      ensures fresh(buf) && fresh(input) && fresh(digest)
    {
      buf := new word[4];
      input := new bv8[64];
      digest := new bv8[16];
      message := [];
      new;
      Init();
    }

    /** `coap_MD5Init` */
    method Init()
      requires Shaped()
      modifies this, buf
      ensures Valid() && message == []
    {
      i0, i1 := 0, 0;
      buf[0] := 0x67452301;
      buf[1] := 0xefcdab89;
      buf[2] := 0x98badcfe;
      buf[3] := 0x10325476;
      message := [];
      assert Whole(message) == [];
    }

    /** `coap_MD5Update` */
    method Update(inBuf: seq<bv8>)
      requires Valid() && |inBuf| < 0x1_0000_0000
      modifies this, buf, input
      ensures Valid() && message == old(message) + inBuf
    {
      hide Counts, Low, High, Chained, Rest;
      var mdi := i0 / 8 % 64;
      Place(i0, i1, |message|);
      Carry(i0, i1, |message|, |inBuf|);
      Count(|inBuf|);
      var k := 0;
      while k < |inBuf|
        invariant 0 <= k <= |inBuf|
        invariant Shaped() && message == old(message) + inBuf[..k]
        invariant Absorbed() && mdi == |message| % 64
        invariant Counts(i0, i1, |old(message)| + |inBuf|)
      {
        Longer(old(message), inBuf, k);
        mdi := Take(inBuf[k], mdi);
        k := k + 1;
      }
      assert inBuf[..k] == inBuf;
    }

    /** The first statements of `coap_MD5Update`: the bits of `more` bytes are counted. */
    method Count(more: uint32)
      modifies this`i0, this`i1
      ensures i0 == Low(old(i0), more) && i1 == High(old(i0), old(i1), more)
    {
      var bits := 8 * more % 0x1_0000_0000;
      if (i0 + bits) % 0x1_0000_0000 < i0 {
        i1 := (i1 + 1) % 0x1_0000_0000;
      }
      i0 := (i0 + bits) % 0x1_0000_0000;
      i1 := (i1 + more / 0x2000_0000) % 0x1_0000_0000;
    }

    /** One turn of the loop of `coap_MD5Update`. */
    method Take(b: bv8, place: nat) returns (mdi: nat)
      requires Shaped() && Absorbed() && place == |message| % 64
      modifies this`message, buf, input
      ensures Shaped() && message == old(message) + [b] && Absorbed() && mdi == |message| % 64
    {
      hide Chained, Compress, Words, Whole, Rest;
      input[place] := b;
      mdi := place + 1;
      assert input[..mdi] == Rest(message) + [b];
      if mdi == 64 {
        ByteFills(message, b);
        Process();
        mdi := 0;
      } else {
        Kept(message, b);
      }
      message := message + [b];
    }

    /** A full `input` is transformed. */
    method Process()
      requires Shaped()
      modifies buf
      ensures Stored(buf) == Compress(old(Stored(buf)), Words(input[..64]))
    {
      hide Compress, Words;
      var x := Load(16);
      assert x[..] == x[..16];
      Transform(buf, x);
    }

    /** As `Process`, but the last two words are given. */
    method ProcessLast(low: word, high: word)
      requires Shaped()
      modifies buf
      ensures Stored(buf) == Compress(old(Stored(buf)), Words(input[..56]) + [low, high])
    {
      hide Compress, Words;
      var x := Load(14);
      x[14] := low;
      x[15] := high;
      assert x[..] == x[..14] + [low, high];
      Transform(buf, x);
    }

    /** The loops that make words of the bytes in `input`. */
    method Load(n: nat) returns (x: array<word>)
      requires Shaped() && n <= 16
      ensures fresh(x) && x.Length == 16 && x[..n] == Words(input[..4 * n])
    {
      x := new word[16];
      var i, ii := 0, 0;
      while i < n
        invariant 0 <= i <= n && ii == 4 * i
        invariant forall k :: 0 <= k < i ==>
            x[k] == Word(input[4 * k], input[4 * k + 1], input[4 * k + 2], input[4 * k + 3])
      {
        x[i] := Word(input[ii], input[ii + 1], input[ii + 2], input[ii + 3]);
        i, ii := i + 1, ii + 4;
      }
    }

    /** `coap_MD5Final` */
    method Final()
      requires Valid()
      modifies this, buf, input, digest
      ensures digest[..] == Digest(old(message))
    {
      hide Valid, Chained, Absorb, Compress, Words, Output, Padded, MessageWords, LengthWords;
      LastBlock(message);
      var low, high := Pad();
      ProcessLast(low, high);
      Store();
    }

    /** Its first half: the count is saved and the message padded out to 56 modulo 64 bytes. */
    method Pad() returns (low: word, high: word)
      requires Valid()
      modifies this, buf, input
      ensures Shaped() && Stored(buf) == Chained(Padded(old(message))) && input[..56] == Rest(Padded(old(message)))
      ensures [low, high] == LengthWords(8 * |old(message)|)
    {
      hide Counts, Chained, Padding, LengthWords, Rest;
      Place(i0, i1, |message|);
      low, high := i0 as word, i1 as word;
      var mdi := i0 / 8 % 64;
      var padLen := if mdi < 56 then 56 - mdi else 120 - mdi;
      PaddingTable(|message|);
      Update(PADDING[..padLen]);
    }

    /** The last loop of `coap_MD5Final`. */
    method Store()
      requires Shaped()
      modifies digest
      ensures digest[..] == Output(Stored(buf))
    {
      hide WordBytes, Output;
      var i, ii := 0, 0;
      OutputLength(Stored(buf));
      while i < 4
        invariant 0 <= i <= 4 && ii == 4 * i
        invariant digest[..ii] == Output(Stored(buf))[..ii]
      {
        OutputPart(Stored(buf), buf[..], i);
        StoreWord(ii, buf[i]);
        i, ii := i + 1, ii + 4;
      }
      assert digest[..] == digest[..16] && Output(Stored(buf)) == Output(Stored(buf))[..16];
    }

    method StoreWord(ii: nat, w: word)
      requires Shaped() && ii <= 12
      modifies digest
      ensures digest[..ii + 4] == old(digest[..ii]) + WordBytes(w)
    {
      digest[ii] := (w & 0xFF) as bv8;
      digest[ii + 1] := ((w >> 8) & 0xFF) as bv8;
      digest[ii + 2] := ((w >> 16) & 0xFF) as bv8;
      digest[ii + 3] := ((w >> 24) & 0xFF) as bv8;
    }
  }

  lemma OutputLength(s: State)
    ensures |Output(s)| == 16
  {
  }

  lemma OutputPart(s: State, words: seq<word>, i: nat)
    requires words == [s.a, s.b, s.c, s.d] && i < 4
    ensures |Output(s)| == 16 && Output(s)[..4 * i + 4] == Output(s)[..4 * i] + WordBytes(words[i])
  {
    OutputLength(s);
    FourBytes(words[i]);
    FourBytes(s.a);
    FourBytes(s.b);
    FourBytes(s.c);
    FourBytes(s.d);
    hide WordBytes;
    PartOfFour(WordBytes(s.a), WordBytes(s.b), WordBytes(s.c), WordBytes(s.d), i);
  }

  lemma FourBytes(w: word)
    ensures |WordBytes(w)| == 4
  {
  }

  lemma PartOfFour(a: seq<bv8>, b: seq<bv8>, c: seq<bv8>, d: seq<bv8>, i: nat)
    requires |a| == |b| == |c| == |d| == 4 && i < 4
    ensures (a + b + c + d)[..4 * i + 4] ==
      (a + b + c + d)[..4 * i] + (if i == 0 then a else if i == 1 then b else if i == 2 then c else d)
  {
  }

  lemma Longer(m: seq<bv8>, more: seq<bv8>, k: nat)
    requires k < |more|
    ensures m + more[..k + 1] == (m + more[..k]) + [more[k]]
  {
  }

  lemma Kept(m: seq<bv8>, b: bv8)
    requires |m| % 64 != 63
    ensures |m + [b]| % 64 == |m| % 64 + 1
    ensures Chained(m + [b]) == Chained(m) && Rest(m + [b]) == Rest(m) + [b]
  {
    hide Absorb, Words;
    ByteKept(m, b);
  }

  function Joined(pieces: seq<seq<bv8>>): seq<bv8> {
    if pieces == [] then [] else Joined(pieces[..|pieces| - 1]) + pieces[|pieces| - 1]
  }

  /** A message cut in any pieces has the digest of the whole. */
  method DigestOf(pieces: seq<seq<bv8>>) returns (digest: seq<bv8>)
    requires forall p :: p in pieces ==> |p| < 0x1_0000_0000
    ensures digest == Digest(Joined(pieces))
  {
    hide Digest;
    var context := new Context();
    var k := 0;
    while k < |pieces|
      invariant 0 <= k <= |pieces|
      invariant context.Valid() && context.message == Joined(pieces[..k])
      invariant fresh(context) && fresh(context.buf) && fresh(context.input) && fresh(context.digest)
    {
      assert pieces[..k + 1][..k] == pieces[..k];
      context.Update(pieces[k]);
      k := k + 1;
    }
    assert pieces[..k] == pieces;
    context.Final();
    digest := context.digest[..];
  }
}
