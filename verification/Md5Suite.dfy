/** A digest worked out by hand of the definition: the message "abc" of the test suite in appendix A.5 of RFC 1321. */
module Md5Suite {
  import opened Md5Spec

  const ABC: seq<bv8> := [0x61, 0x62, 0x63]

  /** The one block of the padded message: its three bytes and the first of the padding, and its length in bits. */
  function InBlock(k: nat): word {
    if k == 0 then 0x80636261 else if k == 14 then 24 else 0
  }

  const BLOCK: seq<word> := seq(16, k requires 0 <= k < 16 => InBlock(k))

  /** One operation, from the value of its function, the sum, and the sum rotated. */
  lemma Step(i: nat, s: State, f: word, sum: word, turned: word, next: word)
    requires Operations(INITIAL, BLOCK, i) == s
    requires Auxiliary(i, s.b, s.c, s.d) == f && Sum(s.a, f, InBlock(WordOf(i)), Sine(i)) == sum
    requires Rotate(sum, Rotation(i)) == turned && Add(s.b, turned) == next
    ensures Operations(INITIAL, BLOCK, i + 1) == State(s.d, next, s.b, s.c)
  {
  }

  lemma Operations16()
    ensures Operations(INITIAL, BLOCK, 16) == State(0xdda9b9a6, 0x72aff2e0, 0xe396856b, 0xa1051895)
  {
    hide Operations;
    NoOperations();
    Step(0, State(0x67452301, 0xefcdab89, 0x98badcfe, 0x10325476), 0x98badcfe, 0x57ce06d8, 0xe7036c2b, 0xd6d117b4);
    Step(1, State(0x10325476, 0xd6d117b4, 0xefcdab89, 0x98badcfe), 0xceebcbca, 0xc7e5d796, 0x5d796c7e, 0x344a8432);
    Step(2, State(0x98badcfe, 0x344a8432, 0xd6d117b4, 0xefcdab89), 0xdfc52fb9, 0x9ca07d92, 0xfb253940, 0x2f6fbd72);
    Step(3, State(0xefcdab89, 0x2f6fbd72, 0x344a8432, 0xd6d117b4), 0xf4da86b6, 0xa666012d, 0x4b699980, 0x7ad956f2);
    Step(4, State(0xd6d117b4, 0x7ad956f2, 0x2f6fbd72, 0x344a8432), 0x2e4b9472, 0xfa98bbd5, 0x4c5deafd, 0xc73741ef);
    Step(5, State(0x344a8432, 0xc73741ef, 0x7ad956f2, 0x2f6fbd72), 0x6a59fcf2, 0xe62c474e, 0xc474ee62, 0x8bac3051);
    Step(6, State(0x2f6fbd72, 0x8bac3051, 0xc73741ef, 0x7ad956f2), 0xf37546e3, 0xcb154a68, 0x94d1962a, 0x207dc67b);
    Step(7, State(0x7ad956f2, 0x207dc67b, 0x8bac3051, 0xc73741ef), 0xc72e01d5, 0x3f4dedc8, 0x720fd37b, 0x928d99f6);
    Step(8, State(0xc73741ef, 0x928d99f6, 0x207dc67b, 0x8bac3051), 0x092da073, 0x39e57b3a, 0xf2bd9d1c, 0x854b3712);
    Step(9, State(0x8bac3051, 0x854b3712, 0x928d99f6, 0x207dc67b), 0xa03dd17b, 0xb72ef97b, 0xef97bb72, 0x74e2f284);
    Step(10, State(0x207dc67b, 0x74e2f284, 0x854b3712, 0x928d99f6), 0x864f3b72, 0xa6cc5d9e, 0xbb3d4d98, 0x3020401c);
    Step(11, State(0x928d99f6, 0x3020401c, 0x74e2f284, 0x854b3712), 0xb56b7706, 0xd155e8ba, 0x2eb4557a, 0x5ed49596);
    Step(12, State(0x854b3712, 0x5ed49596, 0x3020401c, 0x74e2f284), 0x30226214, 0x20fdaa48, 0x7ed52410, 0xdda9b9a6);
    Step(13, State(0x74e2f284, 0xdda9b9a6, 0x5ed49596, 0x3020401c), 0x7c80d19e, 0xeefc35b5, 0xc35b5eef, 0xa1051895);
    Step(14, State(0x3020401c, 0xa1051895, 0xdda9b9a6, 0x5ed49596), 0xdfd19d86, 0xb66b2148, 0x42916cd6, 0xe396856b);
    Step(15, State(0x5ed49596, 0xe396856b, 0xa1051895, 0xdda9b9a6), 0xbd2d3885, 0x65b5d63c, 0x8f196d75, 0x72aff2e0);
  }

  lemma Operations32()
    ensures Operations(INITIAL, BLOCK, 32) == State(0x790a77fb, 0x726342d3, 0xa62884aa, 0x9f47e4f8)
  {
    hide Operations;
    Operations16();
    Step(16, State(0xdda9b9a6, 0x72aff2e0, 0xe396856b, 0xa1051895), 0x629795ea, 0x365f74f2, 0xcbee9e46, 0x3e9e9126);
    Step(17, State(0xa1051895, 0x3e9e9126, 0x72aff2e0, 0xe396856b), 0x32bff3a2, 0x9405bf77, 0x0b7eef28, 0x4a1d804e);
    Step(18, State(0xe396856b, 0x4a1d804e, 0x3e9e9126, 0x72aff2e0), 0x4e1d8146, 0x58126102, 0x98409604, 0xe25e1652);
    Step(19, State(0x72aff2e0, 0xe25e1652, 0x4a1d804e, 0x3e9e9126), 0x621f104a, 0x3ee92d35, 0xd353ee92, 0xb5b204e4);
    Step(20, State(0x3e9e9126, 0xb5b204e4, 0xe25e1652, 0x4a1d804e), 0xa0521654, 0xb51fb7d7, 0xa3f6faf6, 0x59a8ffda);
    Step(21, State(0x4a1d804e, 0x59a8ffda, 0xb5b204e4, 0xe25e1652), 0x55a816f6, 0xa209ab97, 0x13572f44, 0x6d002f1e);
    Step(22, State(0xe25e1652, 0x6d002f1e, 0x59a8ffda, 0xb5b204e4), 0x6d08ff1e, 0x2808fbf1, 0x3efc4a02, 0xabfc7920);
    Step(23, State(0xb5b204e4, 0xabfc7920, 0x6d002f1e, 0x59a8ffda), 0x2da87904, 0xcb2e79b0, 0x9b0cb2e7, 0x47092c07);
    Step(24, State(0x59a8ffda, 0x47092c07, 0xabfc7920, 0x6d002f1e), 0xc7fc7c26, 0x438749e6, 0x70e93cc8, 0xb7f268cf);
    Step(25, State(0x6d002f1e, 0xb7f268cf, 0x47092c07, 0xabfc7920), 0xe7f16c07, 0x1828a313, 0x51462630, 0x09388eff);
    Step(26, State(0xabfc7920, 0x09388eff, 0xb7f268cf, 0x47092c07), 0xb1fa4ccf, 0x52cbd376, 0xf4dd94b2, 0xfe1623b1);
    Step(27, State(0x47092c07, 0xfe1623b1, 0x09388eff, 0xb7f268cf), 0xbe1aa6b1, 0x4a7de7a5, 0x7a54a7de, 0x786acb8f);
    Step(28, State(0xb7f268cf, 0x786acb8f, 0xfe1623b1, 0x09388eff), 0xfe2eab8f, 0x6004fd63, 0x009fac6c, 0x790a77fb);
    Step(29, State(0x09388eff, 0x790a77fb, 0x786acb8f, 0xfe1623b1), 0x786aebbf, 0x7e931eb6, 0x263d6cfd, 0x9f47e4f8);
    Step(30, State(0xfe1623b1, 0x9f47e4f8, 0x790a77fb, 0x786acb8f), 0x1942f4f8, 0x7ec81b82, 0x06e09fb2, 0xa62884aa);
    Step(31, State(0x786acb8f, 0xa62884aa, 0x9f47e4f8, 0x790a77fb), 0xa64d84aa, 0xabe29cc3, 0xcc3abe29, 0x726342d3);
  }

  lemma Operations48()
    ensures Operations(INITIAL, BLOCK, 48) == State(0x7f2e507b, 0x7beb9700, 0x8fae6399, 0x99d9679d)
  {
    hide Operations;
    Operations32();
    Step(32, State(0x790a77fb, 0x726342d3, 0xa62884aa, 0x9f47e4f8), 0x4b0c2281, 0xc410d3be, 0x410d3bec, 0xb3707ebf);
    Step(33, State(0x9f47e4f8, 0xb3707ebf, 0x726342d3, 0xa62884aa), 0x673bb8c6, 0x8df5943f, 0xaca1fc6f, 0x60127b2e);
    Step(34, State(0xa62884aa, 0x60127b2e, 0xb3707ebf, 0x726342d3), 0xa1014742, 0xb4c72d0e, 0x2d0eb4c7, 0x8d212ff5);
    Step(35, State(0x726342d3, 0x8d212ff5, 0x60127b2e, 0xb3707ebf), 0x5e432a64, 0xce8ba55b, 0xade745d2, 0x3b0875c7);
    Step(36, State(0xb3707ebf, 0x3b0875c7, 0x8d212ff5, 0x60127b2e), 0xd63b211c, 0x2e6a8a1f, 0xe6a8a1f2, 0x21b117b9);
    Step(37, State(0x60127b2e, 0x21b117b9, 0x3b0875c7, 0x8d212ff5), 0x97984d8b, 0x43899862, 0x4cc3121c, 0x6e7429d5);
    Step(38, State(0x8d212ff5, 0x6e7429d5, 0x21b117b9, 0x3b0875c7), 0x74cd4bab, 0xf8a9c700, 0xc700f8a9, 0x3575227e);
    Step(39, State(0x3b0875c7, 0x3575227e, 0x6e7429d5, 0x21b117b9), 0x7ab01c12, 0x74784e49, 0x24ba3c27, 0x5a2f5ea5);
    Step(40, State(0x21b117b9, 0x5a2f5ea5, 0x3575227e, 0x6e7429d5), 0x012e550e, 0x4b7aeb8d, 0xb7aeb8d4, 0x11de1779);
    Step(41, State(0x6e7429d5, 0x11de1779, 0x5a2f5ea5, 0x3575227e), 0x7e846ba2, 0x57fd1fd2, 0xe8fe92bf, 0xfadcaa38);
    Step(42, State(0x3575227e, 0xfadcaa38, 0x11de1779, 0x5a2f5ea5), 0xb12de3e4, 0xbb9236e7, 0x36e7bb92, 0x31c465ca);
    Step(43, State(0x5a2f5ea5, 0x31c465ca, 0xfadcaa38, 0x11de1779), 0xdac6d88b, 0x397e5435, 0x1a9cbf2a, 0x4c6124f4);
    Step(44, State(0x11de1779, 0x4c6124f4, 0x31c465ca, 0xfadcaa38), 0x8779eb06, 0x732cd2b8, 0x32cd2b87, 0x7f2e507b);
    Step(45, State(0xfadcaa38, 0x7f2e507b, 0x4c6124f4, 0x31c465ca), 0x028b1145, 0xe4435562, 0x1aab1722, 0x99d9679d);
    Step(46, State(0x31c465ca, 0x99d9679d, 0x7f2e507b, 0x4c6124f4), 0xaa961312, 0xfbfcf5d4, 0xf5d4fbfc, 0x8fae6399);
    Step(47, State(0x4c6124f4, 0x8fae6399, 0x99d9679d, 0x7f2e507b), 0x6959547f, 0x7a66cfd8, 0xec3d3367, 0x7beb9700);
  }

  lemma Operations64()
    ensures Operations(INITIAL, BLOCK, 64) == State(0x310ade8f, 0xc08226b3, 0xe484b9d8, 0x624d8cb2)
  {
    hide Operations;
    Operations48();
    Step(48, State(0x7f2e507b, 0x7beb9700, 0x8fae6399, 0x99d9679d), 0xf041fcfb, 0xe3fcd21b, 0xff3486f8, 0x7b201df8);
    Step(49, State(0x99d9679d, 0x7b201df8, 0x7beb9700, 0x8fae6399), 0x009a0afe, 0xdd9e7232, 0x79c8cb76, 0xf4e8e96e);
    Step(50, State(0x8fae6399, 0xf4e8e96e, 0x7b201df8, 0x7beb9700), 0x8fdcf407, 0xcb1f7b5f, 0xbdafe58f, 0xb298cefd);
    Step(51, State(0x7beb9700, 0xb298cefd, 0xf4e8e96e, 0x7b201df8), 0x42370791, 0xbab63eca, 0xd95756c7, 0x8bf025c4);
    Step(52, State(0x7b201df8, 0x8bf025c4, 0xb298cefd, 0xf4e8e96e), 0x396ff928, 0x19eb70e3, 0x7adc38c6, 0x06cc5e8a);
    Step(53, State(0xf4e8e96e, 0x06cc5e8a, 0x8bf025c4, 0xb298cefd), 0xc41f5a4e, 0x4815104e, 0x54413920, 0x5b0d97aa);
    Step(54, State(0xb298cefd, 0x5b0d97aa, 0x06cc5e8a, 0x8bf025c4), 0x79c38131, 0x2c4c44ab, 0x22559626, 0x7d632dd0);
    Step(55, State(0x8bf025c4, 0x7d632dd0, 0x5b0d97aa, 0x06cc5e8a), 0xa67e3a5f, 0xb7f2bdf4, 0xbe96fe57, 0x3bfa2c27);
    Step(56, State(0x06cc5e8a, 0x3bfa2c27, 0x7d632dd0, 0x5b0d97aa), 0xc29941a7, 0x390e1e80, 0x4387a00e, 0x7f81cc35);
    Step(57, State(0x5b0d97aa, 0x7f81cc35, 0x3bfa2c27, 0x7d632dd0), 0xc467f218, 0x1da270a2, 0x89c28876, 0x094454ab);
    Step(58, State(0x7d632dd0, 0x094454ab, 0x7f81cc35, 0x3bfa2c27), 0xb2c41bce, 0xd3288cb2, 0x46596994, 0x4f9dbe3f);
    Step(59, State(0x3bfa2c27, 0x4f9dbe3f, 0x094454ab, 0x7f81cc35), 0xc6bbeb54, 0x50be291c, 0x238a17c5, 0x7327d604);
    Step(60, State(0x7f81cc35, 0x7327d604, 0x4f9dbe3f, 0x094454ab), 0xb822416b, 0x2ef78c22, 0xbde3088b, 0x310ade8f);
    Step(61, State(0x094454ab, 0x310ade8f, 0x7327d604, 0x4f9dbe3f), 0xc24d09cb, 0x88cc50ab, 0x3142ae23, 0x624d8cb2);
    Step(62, State(0x4f9dbe3f, 0x624d8cb2, 0x310ade8f, 0x7327d604), 0xdfd77374, 0x5a4d046e, 0x82372d26, 0xe484b9d8);
    Step(63, State(0x7327d604, 0xe484b9d8, 0x624d8cb2, 0x310ade8f), 0x8cb8354a, 0xeb66dedf, 0xdbfd6cdb, 0xc08226b3);
  }

  lemma NoOperations()
    ensures Operations(INITIAL, BLOCK, 0) == INITIAL
  {
  }

  lemma BlockOfAbc()
    ensures MessageWords(ABC) == BLOCK
  {
    assert MessageWords(ABC) == Words(Padded(ABC)) + LengthWords(24);
    hide LengthWords;
    LengthOfAbc();
    hide MessageWords, Words, Padded, Padding, Word;
    forall k | 0 <= k < 14
      ensures Words(Padded(ABC))[k] == InBlock(k)
    {
      WordOfAbc(k);
    }
  }

  lemma LengthOfAbc()
    ensures LengthWords(24) == [24, 0]
  {
    assert 24 % 0x1_0000_0000 == 24 && 24 / 0x1_0000_0000 % 0x1_0000_0000 == 0;
  }

  lemma WordOfAbc(k: nat)
    requires k < 14
    ensures |Words(Padded(ABC))| == 14 && Words(Padded(ABC))[k] == InBlock(k)
  {
    var p := Padded(ABC);
    FirstWord();
    assert p[4 * k + 3] == if k == 0 then 0x80 else 0;
    hide Word;
  }

  lemma FirstWord()
    ensures Word(0x61, 0x62, 0x63, 0x80) == 0x80636261 && Word(0, 0, 0, 0) == 0
  {
  }

  lemma BlockAdded()
    ensures Compress(INITIAL, BLOCK) == State(0x98500190, 0xb04fd23c, 0x7d3f96d6, 0x727fe128)
  {
    Operations64();
  }

  lemma OutputOf()
    ensures Output(State(0x98500190, 0xb04fd23c, 0x7d3f96d6, 0x727fe128))
            == [0x90, 0x01, 0x50, 0x98, 0x3c, 0xd2, 0x4f, 0xb0,
                0xd6, 0x96, 0x3f, 0x7d, 0x28, 0xe1, 0x7f, 0x72]
  {
  }

  /** MD5 ("abc") = 900150983cd24fb0d6963f7d28e17f72 */
  lemma DigestOfAbc()
    ensures Digest(ABC) == [0x90, 0x01, 0x50, 0x98, 0x3c, 0xd2, 0x4f, 0xb0,
                            0xd6, 0x96, 0x3f, 0x7d, 0x28, 0xe1, 0x7f, 0x72]
  {
    hide Compress, Output, MessageWords;
    BlockOfAbc();
    assert BLOCK[..0] == [] && BLOCK[0..] == BLOCK;
    assert Absorb(INITIAL, []) == INITIAL;
    BlockAdded();
    OutputOf();
  }
}
