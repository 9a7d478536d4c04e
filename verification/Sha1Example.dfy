/** The example of appendix A of FIPS 180-1, worked out by the definitions: the schedule and the working
    variables of its one block, and the digest of "abc". */
module Sha1Example {
  import opened Arithmetic
  import opened Bytes
  import opened Sha1Spec

  const MESSAGE: seq<byte> := [0x61, 0x62, 0x63]

  /** The message, the one bit, 52 zeros and the length of 24 bits. */
  const BLOCK: seq<byte> := MESSAGE + [0x80] + Zeros(52) + [0, 0, 0, 0, 0, 0, 0, 24]

  lemma ByteOf(b: byte)
    ensures ToByte(ByteValue(b)) == b
  {
  }

  lemma LengthBytes()
    ensures BigEndian(24, 8) == [0, 0, 0, 0, 0, 0, 0, 24]
  {
    hide ToByte;
    ByteOf(0);
    ByteOf(24);
    assert ByteValue(24) == 24 && ByteValue(0) == 0;
    LowBytes();
  }

  lemma LowBytes()
    ensures BigEndian(24, 8)
         == [ToByte(0), ToByte(0), ToByte(0), ToByte(0), ToByte(0), ToByte(0), ToByte(0), ToByte(24)]
  {
    hide ToByte;
    assert BigEndian(0, 4) == [ToByte(0), ToByte(0), ToByte(0), ToByte(0)];
    assert BigEndian(0, 7) == [ToByte(0), ToByte(0), ToByte(0), ToByte(0), ToByte(0), ToByte(0), ToByte(0)];
  }

  lemma Block()
    ensures Padded(MESSAGE) == BLOCK && |BLOCK| == 64
  {
    hide BigEndian, Zeros;
    LengthBytes();
    assert ZeroCount(3) == 52;
  }

  lemma FirstWords()
    requires |BLOCK| == 64
    ensures W(BLOCK, 0) == 0x61626380 && W(BLOCK, 1) == 0x00000000
    ensures W(BLOCK, 2) == 0x00000000 && W(BLOCK, 3) == 0x00000000
    ensures W(BLOCK, 4) == 0x00000000 && W(BLOCK, 5) == 0x00000000
    ensures W(BLOCK, 6) == 0x00000000 && W(BLOCK, 7) == 0x00000000
    ensures W(BLOCK, 8) == 0x00000000 && W(BLOCK, 9) == 0x00000000
    ensures W(BLOCK, 10) == 0x00000000 && W(BLOCK, 11) == 0x00000000
    ensures W(BLOCK, 12) == 0x00000000 && W(BLOCK, 13) == 0x00000000
    ensures W(BLOCK, 14) == 0x00000000 && W(BLOCK, 15) == 0x00000018
  {
    hide FromBytes;
    ThreeWords();
    assert forall i :: 4 <= i < 63 ==> BLOCK[i] == 0;
  }

  lemma ThreeWords()
    ensures FromBytes(0x61, 0x62, 0x63, 0x80) == 0x61626380
    ensures FromBytes(0, 0, 0, 24) == 24 && FromBytes(0, 0, 0, 0) == 0
  {
  }

  lemma Schedule0()
    requires |BLOCK| == 64
    ensures W(BLOCK, 16) == 0xc2c4c700 && W(BLOCK, 17) == 0x00000000
    ensures W(BLOCK, 18) == 0x00000030 && W(BLOCK, 19) == 0x85898e01
    ensures W(BLOCK, 20) == 0x00000000 && W(BLOCK, 21) == 0x00000060
    ensures W(BLOCK, 22) == 0x0b131c03 && W(BLOCK, 23) == 0x00000030
  {
    hide Word;
    FirstWords();
    assert W(BLOCK, 16) == 0xc2c4c700;
    assert W(BLOCK, 17) == 0x00000000;
    assert W(BLOCK, 18) == 0x00000030;
    assert W(BLOCK, 19) == 0x85898e01;
    assert W(BLOCK, 20) == 0x00000000;
    assert W(BLOCK, 21) == 0x00000060;
    assert W(BLOCK, 22) == 0x0b131c03;
    assert W(BLOCK, 23) == 0x00000030;
  }

  lemma Schedule1()
    requires |BLOCK| == 64
    ensures W(BLOCK, 24) == 0x85898ec1 && W(BLOCK, 25) == 0x16263806
    ensures W(BLOCK, 26) == 0x00000000 && W(BLOCK, 27) == 0x00000180
    ensures W(BLOCK, 28) == 0x2c4c700c && W(BLOCK, 29) == 0x000000f0
    ensures W(BLOCK, 30) == 0x93afb507 && W(BLOCK, 31) == 0x5898e048
  {
    hide Word;
    FirstWords();
    Schedule0();
    assert W(BLOCK, 24) == 0x85898ec1;
    assert W(BLOCK, 25) == 0x16263806;
    assert W(BLOCK, 26) == 0x00000000;
    assert W(BLOCK, 27) == 0x00000180;
    assert W(BLOCK, 28) == 0x2c4c700c;
    assert W(BLOCK, 29) == 0x000000f0;
    assert W(BLOCK, 30) == 0x93afb507;
    assert W(BLOCK, 31) == 0x5898e048;
  }

  lemma Schedule2()
    requires |BLOCK| == 64
    ensures W(BLOCK, 32) == 0x8e9a9202 && W(BLOCK, 33) == 0x00000600
    ensures W(BLOCK, 34) == 0xb131c0f0 && W(BLOCK, 35) == 0x16263bc6
    ensures W(BLOCK, 36) == 0x4ebed41e && W(BLOCK, 37) == 0x626380a1
    ensures W(BLOCK, 38) == 0x16263806 && W(BLOCK, 39) == 0x000018c0
  {
    hide Word;
    Schedule0();
    Schedule1();
    assert W(BLOCK, 32) == 0x8e9a9202;
    assert W(BLOCK, 33) == 0x00000600;
    assert W(BLOCK, 34) == 0xb131c0f0;
    assert W(BLOCK, 35) == 0x16263bc6;
    assert W(BLOCK, 36) == 0x4ebed41e;
    assert W(BLOCK, 37) == 0x626380a1;
    assert W(BLOCK, 38) == 0x16263806;
    assert W(BLOCK, 39) == 0x000018c0;
  }

  lemma Schedule3()
    requires |BLOCK| == 64
    ensures W(BLOCK, 40) == 0xd2e138c4 && W(BLOCK, 41) == 0x00000f00
    ensures W(BLOCK, 42) == 0x3afb5079 && W(BLOCK, 43) == 0x898e04e5
    ensures W(BLOCK, 44) == 0xe2ba3c2b && W(BLOCK, 45) == 0x000060c0
    ensures W(BLOCK, 46) == 0x053a37cd && W(BLOCK, 47) == 0x74458547
  {
    hide Word;
    Schedule1();
    Schedule2();
    assert W(BLOCK, 40) == 0xd2e138c4;
    assert W(BLOCK, 41) == 0x00000f00;
    assert W(BLOCK, 42) == 0x3afb5079;
    assert W(BLOCK, 43) == 0x898e04e5;
    assert W(BLOCK, 44) == 0xe2ba3c2b;
    assert W(BLOCK, 45) == 0x000060c0;
    assert W(BLOCK, 46) == 0x053a37cd;
    assert W(BLOCK, 47) == 0x74458547;
  }

  lemma Schedule4()
    requires |BLOCK| == 64
    ensures W(BLOCK, 48) == 0xda9415ed && W(BLOCK, 49) == 0x26380a16
    ensures W(BLOCK, 50) == 0x626383a1 && W(BLOCK, 51) == 0x4ebf54de
    ensures W(BLOCK, 52) == 0x3835b44b && W(BLOCK, 53) == 0x0000f600
    ensures W(BLOCK, 54) == 0x1e84c7a3 && W(BLOCK, 55) == 0x98e04d98
  {
    hide Word;
    Schedule2();
    Schedule3();
    assert W(BLOCK, 48) == 0xda9415ed;
    assert W(BLOCK, 49) == 0x26380a16;
    assert W(BLOCK, 50) == 0x626383a1;
    assert W(BLOCK, 51) == 0x4ebf54de;
    assert W(BLOCK, 52) == 0x3835b44b;
    assert W(BLOCK, 53) == 0x0000f600;
    assert W(BLOCK, 54) == 0x1e84c7a3;
    assert W(BLOCK, 55) == 0x98e04d98;
  }

  lemma Schedule5()
    requires |BLOCK| == 64
    ensures W(BLOCK, 56) == 0x651d16a0 && W(BLOCK, 57) == 0x62658ca1
    ensures W(BLOCK, 58) == 0x458544d6 && W(BLOCK, 59) == 0x44584cb7
    ensures W(BLOCK, 60) == 0x7ba06619 && W(BLOCK, 61) == 0x6380aea2
    ensures W(BLOCK, 62) == 0x0ae55269 && W(BLOCK, 63) == 0x627b49a1
  {
    hide Word;
    Schedule3();
    Schedule4();
    assert W(BLOCK, 56) == 0x651d16a0;
    assert W(BLOCK, 57) == 0x62658ca1;
    assert W(BLOCK, 58) == 0x458544d6;
    assert W(BLOCK, 59) == 0x44584cb7;
    assert W(BLOCK, 60) == 0x7ba06619;
    assert W(BLOCK, 61) == 0x6380aea2;
    assert W(BLOCK, 62) == 0x0ae55269;
    assert W(BLOCK, 63) == 0x627b49a1;
  }

  lemma Schedule6()
    requires |BLOCK| == 64
    ensures W(BLOCK, 64) == 0x7cd45c9d && W(BLOCK, 65) == 0x000f0000
    ensures W(BLOCK, 66) == 0xfb50753a && W(BLOCK, 67) == 0xec6765e8
    ensures W(BLOCK, 68) == 0xba3c2be2 && W(BLOCK, 69) == 0x0060c000
    ensures W(BLOCK, 70) == 0x3a37cd05 && W(BLOCK, 71) == 0x458546f4
  {
    hide Word;
    Schedule4();
    Schedule5();
    assert W(BLOCK, 64) == 0x7cd45c9d;
    assert W(BLOCK, 65) == 0x000f0000;
    assert W(BLOCK, 66) == 0xfb50753a;
    assert W(BLOCK, 67) == 0xec6765e8;
    assert W(BLOCK, 68) == 0xba3c2be2;
    assert W(BLOCK, 69) == 0x0060c000;
    assert W(BLOCK, 70) == 0x3a37cd05;
    assert W(BLOCK, 71) == 0x458546f4;
  }

  lemma Schedule7()
    requires |BLOCK| == 64
    ensures W(BLOCK, 72) == 0xb8599dd6 && W(BLOCK, 73) == 0x380a1a26
    ensures W(BLOCK, 74) == 0x01e02203 && W(BLOCK, 75) == 0xe7cc3456
    ensures W(BLOCK, 76) == 0xe6e60b69 && W(BLOCK, 77) == 0x00f60a00
    ensures W(BLOCK, 78) == 0x5795ef4f && W(BLOCK, 79) == 0x822e0879
  {
    hide Word;
    Schedule5();
    Schedule6();
    assert W(BLOCK, 72) == 0xb8599dd6;
    assert W(BLOCK, 73) == 0x380a1a26;
    assert W(BLOCK, 74) == 0x01e02203;
    assert W(BLOCK, 75) == 0xe7cc3456;
    assert W(BLOCK, 76) == 0xe6e60b69;
    assert W(BLOCK, 77) == 0x00f60a00;
    assert W(BLOCK, 78) == 0x5795ef4f;
    assert W(BLOCK, 79) == 0x822e0879;
  }

  lemma Rounds0()
    requires |BLOCK| == 64
    ensures Rounds(BLOCK, Initial(), 8) == Words(0x9e8c07d4, 0x993e30c1, 0x0ff1f290, 0xb3f52677, 0xf3763846)
  {
    hide W;
    FirstWords();
    assert Rounds(BLOCK, Initial(), 1) == Words(0x0116fc33, 0x67452301, 0x7bf36ae2, 0x98badcfe, 0x10325476);
    assert Rounds(BLOCK, Initial(), 2) == Words(0x8990536d, 0x0116fc33, 0x59d148c0, 0x7bf36ae2, 0x98badcfe);
    assert Rounds(BLOCK, Initial(), 3) == Words(0xa1390f08, 0x8990536d, 0xc045bf0c, 0x59d148c0, 0x7bf36ae2);
    assert Rounds(BLOCK, Initial(), 4) == Words(0xcdd8e11b, 0xa1390f08, 0x626414db, 0xc045bf0c, 0x59d148c0);
    assert Rounds(BLOCK, Initial(), 5) == Words(0xcfd499de, 0xcdd8e11b, 0x284e43c2, 0x626414db, 0xc045bf0c);
    assert Rounds(BLOCK, Initial(), 6) == Words(0x3fc7ca40, 0xcfd499de, 0xf3763846, 0x284e43c2, 0x626414db);
    assert Rounds(BLOCK, Initial(), 7) == Words(0x993e30c1, 0x3fc7ca40, 0xb3f52677, 0xf3763846, 0x284e43c2);
    assert Rounds(BLOCK, Initial(), 8) == Words(0x9e8c07d4, 0x993e30c1, 0x0ff1f290, 0xb3f52677, 0xf3763846);
  }

  lemma Rounds1()
    requires |BLOCK| == 64
    ensures Rounds(BLOCK, Initial(), 16) == Words(0x20bdd62f, 0x196bee77, 0x644a3da5, 0x1181ed99, 0x18c623f9)
  {
    hide W;
    Rounds0();
    FirstWords();
    assert Rounds(BLOCK, Initial(), 9) == Words(0x4b6ae328, 0x9e8c07d4, 0x664f8c30, 0x0ff1f290, 0xb3f52677);
    assert Rounds(BLOCK, Initial(), 10) == Words(0x8351f929, 0x4b6ae328, 0x27a301f5, 0x664f8c30, 0x0ff1f290);
    assert Rounds(BLOCK, Initial(), 11) == Words(0xfbda9e89, 0x8351f929, 0x12dab8ca, 0x27a301f5, 0x664f8c30);
    assert Rounds(BLOCK, Initial(), 12) == Words(0x63188fe4, 0xfbda9e89, 0x60d47e4a, 0x12dab8ca, 0x27a301f5);
    assert Rounds(BLOCK, Initial(), 13) == Words(0x4607b664, 0x63188fe4, 0x7ef6a7a2, 0x60d47e4a, 0x12dab8ca);
    assert Rounds(BLOCK, Initial(), 14) == Words(0x9128f695, 0x4607b664, 0x18c623f9, 0x7ef6a7a2, 0x60d47e4a);
    assert Rounds(BLOCK, Initial(), 15) == Words(0x196bee77, 0x9128f695, 0x1181ed99, 0x18c623f9, 0x7ef6a7a2);
    assert Rounds(BLOCK, Initial(), 16) == Words(0x20bdd62f, 0x196bee77, 0x644a3da5, 0x1181ed99, 0x18c623f9);
  }

  lemma Rounds2()
    requires |BLOCK| == 64
    ensures Rounds(BLOCK, Initial(), 24) == Words(0xd541f12d, 0x21283486, 0x0ce88eff, 0x868dec32, 0x7f67875f)
  {
    hide W;
    Rounds1();
    Schedule0();
    assert Rounds(BLOCK, Initial(), 17) == Words(0x4e925823, 0x20bdd62f, 0xc65afb9d, 0x644a3da5, 0x1181ed99);
    assert Rounds(BLOCK, Initial(), 18) == Words(0x82aa6728, 0x4e925823, 0xc82f758b, 0xc65afb9d, 0x644a3da5);
    assert Rounds(BLOCK, Initial(), 19) == Words(0xdc64901d, 0x82aa6728, 0xd3a49608, 0xc82f758b, 0xc65afb9d);
    assert Rounds(BLOCK, Initial(), 20) == Words(0xfd9e1d7d, 0xdc64901d, 0x20aa99ca, 0xd3a49608, 0xc82f758b);
    assert Rounds(BLOCK, Initial(), 21) == Words(0x1a37b0ca, 0xfd9e1d7d, 0x77192407, 0x20aa99ca, 0xd3a49608);
    assert Rounds(BLOCK, Initial(), 22) == Words(0x33a23bfc, 0x1a37b0ca, 0x7f67875f, 0x77192407, 0x20aa99ca);
    assert Rounds(BLOCK, Initial(), 23) == Words(0x21283486, 0x33a23bfc, 0x868dec32, 0x7f67875f, 0x77192407);
    assert Rounds(BLOCK, Initial(), 24) == Words(0xd541f12d, 0x21283486, 0x0ce88eff, 0x868dec32, 0x7f67875f);
  }

  lemma Rounds3()
    requires |BLOCK| == 64
    ensures Rounds(BLOCK, Initial(), 32) == Words(0x3b845d33, 0x1267b407, 0x717eebd7, 0xa0dc2d4b, 0xd2aa1365)
  {
    hide W;
    Rounds2();
    Schedule1();
    assert Rounds(BLOCK, Initial(), 25) == Words(0xc7567dc6, 0xd541f12d, 0x884a0d21, 0x0ce88eff, 0x868dec32);
    assert Rounds(BLOCK, Initial(), 26) == Words(0x48413ba4, 0xc7567dc6, 0x75507c4b, 0x884a0d21, 0x0ce88eff);
    assert Rounds(BLOCK, Initial(), 27) == Words(0xbe35fbd5, 0x48413ba4, 0xb1d59f71, 0x75507c4b, 0x884a0d21);
    assert Rounds(BLOCK, Initial(), 28) == Words(0x4aa84d97, 0xbe35fbd5, 0x12104ee9, 0xb1d59f71, 0x75507c4b);
    assert Rounds(BLOCK, Initial(), 29) == Words(0x8370b52e, 0x4aa84d97, 0x6f8d7ef5, 0x12104ee9, 0xb1d59f71);
    assert Rounds(BLOCK, Initial(), 30) == Words(0xc5fbaf5d, 0x8370b52e, 0xd2aa1365, 0x6f8d7ef5, 0x12104ee9);
    assert Rounds(BLOCK, Initial(), 31) == Words(0x1267b407, 0xc5fbaf5d, 0xa0dc2d4b, 0xd2aa1365, 0x6f8d7ef5);
    assert Rounds(BLOCK, Initial(), 32) == Words(0x3b845d33, 0x1267b407, 0x717eebd7, 0xa0dc2d4b, 0xd2aa1365);
  }

  lemma Rounds4()
    requires |BLOCK| == 64
    ensures Rounds(BLOCK, Initial(), 40) == Words(0x32de1cba, 0x4c986405, 0xf718e5cf, 0x03d447f6, 0xf72eec32)
  {
    hide W;
    Rounds3();
    Schedule2();
    assert Rounds(BLOCK, Initial(), 33) == Words(0x046faa0a, 0x3b845d33, 0xc499ed01, 0x717eebd7, 0xa0dc2d4b);
    assert Rounds(BLOCK, Initial(), 34) == Words(0x2c0ebc11, 0x046faa0a, 0xcee1174c, 0xc499ed01, 0x717eebd7);
    assert Rounds(BLOCK, Initial(), 35) == Words(0x21796ad4, 0x2c0ebc11, 0x811bea82, 0xcee1174c, 0xc499ed01);
    assert Rounds(BLOCK, Initial(), 36) == Words(0xdcbbb0cb, 0x21796ad4, 0x4b03af04, 0x811bea82, 0xcee1174c);
    assert Rounds(BLOCK, Initial(), 37) == Words(0x0f511fd8, 0xdcbbb0cb, 0x085e5ab5, 0x4b03af04, 0x811bea82);
    assert Rounds(BLOCK, Initial(), 38) == Words(0xdc63973f, 0x0f511fd8, 0xf72eec32, 0x085e5ab5, 0x4b03af04);
    assert Rounds(BLOCK, Initial(), 39) == Words(0x4c986405, 0xdc63973f, 0x03d447f6, 0xf72eec32, 0x085e5ab5);
    assert Rounds(BLOCK, Initial(), 40) == Words(0x32de1cba, 0x4c986405, 0xf718e5cf, 0x03d447f6, 0xf72eec32);
  }

  lemma Rounds5()
    requires |BLOCK| == 64
    ensures Rounds(BLOCK, Initial(), 48) == Words(0xbead02ca, 0xa01b846c, 0x8714787c, 0x503ca382, 0xfb86c6ab)
  {
    hide W;
    Rounds4();
    Schedule3();
    assert Rounds(BLOCK, Initial(), 41) == Words(0xfc87dedf, 0x32de1cba, 0x53261901, 0xf718e5cf, 0x03d447f6);
    assert Rounds(BLOCK, Initial(), 42) == Words(0x970a0d5c, 0xfc87dedf, 0x8cb7872e, 0x53261901, 0xf718e5cf);
    assert Rounds(BLOCK, Initial(), 43) == Words(0x7f193dc5, 0x970a0d5c, 0xff21f7b7, 0x8cb7872e, 0x53261901);
    assert Rounds(BLOCK, Initial(), 44) == Words(0xee1b1aaf, 0x7f193dc5, 0x25c28357, 0xff21f7b7, 0x8cb7872e);
    assert Rounds(BLOCK, Initial(), 45) == Words(0x40f28e09, 0xee1b1aaf, 0x5fc64f71, 0x25c28357, 0xff21f7b7);
    assert Rounds(BLOCK, Initial(), 46) == Words(0x1c51e1f2, 0x40f28e09, 0xfb86c6ab, 0x5fc64f71, 0x25c28357);
    assert Rounds(BLOCK, Initial(), 47) == Words(0xa01b846c, 0x1c51e1f2, 0x503ca382, 0xfb86c6ab, 0x5fc64f71);
    assert Rounds(BLOCK, Initial(), 48) == Words(0xbead02ca, 0xa01b846c, 0x8714787c, 0x503ca382, 0xfb86c6ab);
  }

  lemma Rounds6()
    requires |BLOCK| == 64
    ensures Rounds(BLOCK, Initial(), 56) == Words(0x5e6456af, 0x7b71f76d, 0x09fa7c76, 0x792410db, 0x8e11eb59)
  {
    hide W;
    Rounds5();
    Schedule4();
    assert Rounds(BLOCK, Initial(), 49) == Words(0xbaf39337, 0xbead02ca, 0x2806e11b, 0x8714787c, 0x503ca382);
    assert Rounds(BLOCK, Initial(), 50) == Words(0x120731c5, 0xbaf39337, 0xafab40b2, 0x2806e11b, 0x8714787c);
    assert Rounds(BLOCK, Initial(), 51) == Words(0x641db2ce, 0x120731c5, 0xeebce4cd, 0xafab40b2, 0x2806e11b);
    assert Rounds(BLOCK, Initial(), 52) == Words(0x3847ad66, 0x641db2ce, 0x4481cc71, 0xeebce4cd, 0xafab40b2);
    assert Rounds(BLOCK, Initial(), 53) == Words(0xe490436d, 0x3847ad66, 0x99076cb3, 0x4481cc71, 0xeebce4cd);
    assert Rounds(BLOCK, Initial(), 54) == Words(0x27e9f1d8, 0xe490436d, 0x8e11eb59, 0x99076cb3, 0x4481cc71);
    assert Rounds(BLOCK, Initial(), 55) == Words(0x7b71f76d, 0x27e9f1d8, 0x792410db, 0x8e11eb59, 0x99076cb3);
    assert Rounds(BLOCK, Initial(), 56) == Words(0x5e6456af, 0x7b71f76d, 0x09fa7c76, 0x792410db, 0x8e11eb59);
  }

  lemma Rounds7()
    requires |BLOCK| == 64
    ensures Rounds(BLOCK, Initial(), 64) == Words(0x6b61c9e1, 0xb66c020b, 0x9523272c, 0xf5d5b051, 0x8fd4b796)
  {
    hide W;
    Rounds6();
    Schedule5();
    assert Rounds(BLOCK, Initial(), 57) == Words(0xc846093f, 0x5e6456af, 0x5edc7ddb, 0x09fa7c76, 0x792410db);
    assert Rounds(BLOCK, Initial(), 58) == Words(0xd262ff50, 0xc846093f, 0xd79915ab, 0x5edc7ddb, 0x09fa7c76);
    assert Rounds(BLOCK, Initial(), 59) == Words(0x09d785fd, 0xd262ff50, 0xf211824f, 0xd79915ab, 0x5edc7ddb);
    assert Rounds(BLOCK, Initial(), 60) == Words(0x3f52de5a, 0x09d785fd, 0x3498bfd4, 0xf211824f, 0xd79915ab);
    assert Rounds(BLOCK, Initial(), 61) == Words(0xd756c147, 0x3f52de5a, 0x4275e17f, 0x3498bfd4, 0xf211824f);
    assert Rounds(BLOCK, Initial(), 62) == Words(0x548c9cb2, 0xd756c147, 0x8fd4b796, 0x4275e17f, 0x3498bfd4);
    assert Rounds(BLOCK, Initial(), 63) == Words(0xb66c020b, 0x548c9cb2, 0xf5d5b051, 0x8fd4b796, 0x4275e17f);
    assert Rounds(BLOCK, Initial(), 64) == Words(0x6b61c9e1, 0xb66c020b, 0x9523272c, 0xf5d5b051, 0x8fd4b796);
  }

  lemma Rounds8()
    requires |BLOCK| == 64
    ensures Rounds(BLOCK, Initial(), 72) == Words(0x39859de7, 0xc199f8c7, 0x8fc96230, 0x125c24f0, 0xde37534a)
  {
    hide W;
    Rounds7();
    Schedule6();
    assert Rounds(BLOCK, Initial(), 65) == Words(0x19dfa7ac, 0x6b61c9e1, 0xed9b0082, 0x9523272c, 0xf5d5b051);
    assert Rounds(BLOCK, Initial(), 66) == Words(0x101655f9, 0x19dfa7ac, 0x5ad87278, 0xed9b0082, 0x9523272c);
    assert Rounds(BLOCK, Initial(), 67) == Words(0x0c3df2b4, 0x101655f9, 0x0677e9eb, 0x5ad87278, 0xed9b0082);
    assert Rounds(BLOCK, Initial(), 68) == Words(0x78dd4d2b, 0x0c3df2b4, 0x4405957e, 0x0677e9eb, 0x5ad87278);
    assert Rounds(BLOCK, Initial(), 69) == Words(0x497093c0, 0x78dd4d2b, 0x030f7cad, 0x4405957e, 0x0677e9eb);
    assert Rounds(BLOCK, Initial(), 70) == Words(0x3f2588c2, 0x497093c0, 0xde37534a, 0x030f7cad, 0x4405957e);
    assert Rounds(BLOCK, Initial(), 71) == Words(0xc199f8c7, 0x3f2588c2, 0x125c24f0, 0xde37534a, 0x030f7cad);
    assert Rounds(BLOCK, Initial(), 72) == Words(0x39859de7, 0xc199f8c7, 0x8fc96230, 0x125c24f0, 0xde37534a);
  }

  lemma Rounds9()
    requires |BLOCK| == 64
    ensures Rounds(BLOCK, Initial(), 80) == Words(0x42541b35, 0x5738d5e1, 0x21834873, 0x681e6df6, 0xd8fdf6ad)
  {
    hide W;
    Rounds8();
    Schedule7();
    assert Rounds(BLOCK, Initial(), 73) == Words(0xedb42de4, 0x39859de7, 0xf0667e31, 0x8fc96230, 0x125c24f0);
    assert Rounds(BLOCK, Initial(), 74) == Words(0x11793f6f, 0xedb42de4, 0xce616779, 0xf0667e31, 0x8fc96230);
    assert Rounds(BLOCK, Initial(), 75) == Words(0x5ee76897, 0x11793f6f, 0x3b6d0b79, 0xce616779, 0xf0667e31);
    assert Rounds(BLOCK, Initial(), 76) == Words(0x63f7dab7, 0x5ee76897, 0xc45e4fdb, 0x3b6d0b79, 0xce616779);
    assert Rounds(BLOCK, Initial(), 77) == Words(0xa079b7d9, 0x63f7dab7, 0xd7b9da25, 0xc45e4fdb, 0x3b6d0b79);
    assert Rounds(BLOCK, Initial(), 78) == Words(0x860d21cc, 0xa079b7d9, 0xd8fdf6ad, 0xd7b9da25, 0xc45e4fdb);
    assert Rounds(BLOCK, Initial(), 79) == Words(0x5738d5e1, 0x860d21cc, 0x681e6df6, 0xd8fdf6ad, 0xd7b9da25);
    assert Rounds(BLOCK, Initial(), 80) == Words(0x42541b35, 0x5738d5e1, 0x21834873, 0x681e6df6, 0xd8fdf6ad);
  }

  /** The digest of the standard's example. */
  lemma Abc()
    ensures Sha1(MESSAGE) == [0xa9, 0x99, 0x3e, 0x36,
        0x47, 0x06, 0x81, 0x6a,
        0xba, 0x3e, 0x25, 0x71,
        0x78, 0x50, 0xc2, 0x6c,
        0x9c, 0xd0, 0xd8, 0x9d]
  {
    hide Rounds, W, Zeros, Padded, WordBytes;
    Block();
    Rounds9();
    assert BLOCK[..0] == [] && BLOCK[0..] == BLOCK;
    assert Absorb(Initial(), []) == Initial();
    Sum();
    DigestBytes();
  }

  lemma Sum()
    ensures Add(Initial(), Words(0x42541b35, 0x5738d5e1, 0x21834873, 0x681e6df6, 0xd8fdf6ad))
         == Words(0xa9993e36, 0x4706816a, 0xba3e2571, 0x7850c26c, 0x9cd0d89d)
  {
  }

  lemma DigestBytes()
    ensures Digest(Words(0xa9993e36, 0x4706816a, 0xba3e2571, 0x7850c26c, 0x9cd0d89d))
         == [0xa9, 0x99, 0x3e, 0x36,
        0x47, 0x06, 0x81, 0x6a,
        0xba, 0x3e, 0x25, 0x71,
        0x78, 0x50, 0xc2, 0x6c,
        0x9c, 0xd0, 0xd8, 0x9d]
  {
  }
}
