// The examples of FIPS PUB 180-1: its function is the one that is modelled.
module Sha1Vectors {
  import opened Sha1
  import opened StreamInt

  // Four words of a schedule.
  predicate Four(w: seq<Word>, t: nat, a: Word, b: Word, c: Word, d: Word)
    requires t + 4 <= |w|
  {
    w[t] == a && w[t + 1] == b && w[t + 2] == c && w[t + 3] == d
  }

  lemma {:induction false} WordOf(block: Bytes, n: nat, t: nat)
    requires |block| == 64 && t < n
    ensures var w := Schedule(block, n);
      w[t] == if t < 16 then WordAt(block, t) else Mixed(w[t - 3], w[t - 8], w[t - 14], w[t - 16])
    decreases n
  {
    hide Mixed, WordAt;
    if t < n - 1 {
      WordOf(block, n - 1, t);
    }
  }

  predicate Reads(block: Bytes, t: nat, a: Word, b: Word, c: Word, d: Word)
    requires |block| == 64 && t < 13
  {
    WordAt(block, t) == a && WordAt(block, t + 1) == b && WordAt(block, t + 2) == c && WordAt(block, t + 3) == d
  }

  // Four words that are read from the block ...
  lemma ReadFour(block: Bytes, w: seq<Word>, t: nat, a: Word, b: Word, c: Word, d: Word)
    requires |block| == 64 && w == Schedule(block, 80) && t < 13 && Reads(block, t, a, b, c, d)
    ensures Four(w, t, a, b, c, d)
  {
    hide Schedule, WordAt;
    WordOf(block, 80, t);
    WordOf(block, 80, t + 1);
    WordOf(block, 80, t + 2);
    WordOf(block, 80, t + 3);
  }

  // ... or mixed.
  lemma MixFour(block: Bytes, w: seq<Word>, t: nat, a: Word, b: Word, c: Word, d: Word)
    requires |block| == 64 && w == Schedule(block, 80) && 16 <= t < 77
    requires a == Mixed(w[t - 3], w[t - 8], w[t - 14], w[t - 16])
    requires b == Mixed(w[t - 2], w[t - 7], w[t - 13], w[t - 15])
    requires c == Mixed(w[t - 1], w[t - 6], w[t - 12], w[t - 14])
    requires d == Mixed(a, w[t - 5], w[t - 11], w[t - 13])
    ensures Four(w, t, a, b, c, d)
  {
    hide Mixed, Schedule;
    WordOf(block, 80, t);
    WordOf(block, 80, t + 1);
    WordOf(block, 80, t + 2);
    WordOf(block, 80, t + 3);
  }

  lemma FourRounds(h: Hash, w: seq<Word>, t: nat, s: Hash, a: Word, b: Word, c: Word, d: Word)
    requires t + 4 <= |w| && Rounds(h, w, t) == s
    requires a == Temp(s.a, F(t, s.b, s.c, s.d), s.e, w[t], K(t))
    requires b == Temp(a, F(t + 1, s.a, Rotl(s.b, 30), s.c), s.d, w[t + 1], K(t + 1))
    requires c == Temp(b, F(t + 2, a, Rotl(s.a, 30), Rotl(s.b, 30)), s.c, w[t + 2], K(t + 2))
    requires d == Temp(c, F(t + 3, b, Rotl(a, 30), Rotl(s.a, 30)), Rotl(s.b, 30), w[t + 3], K(t + 3))
    ensures Rounds(h, w, t + 4) == Hash(d, c, Rotl(b, 30), Rotl(a, 30), Rotl(s.a, 30))
  {
    hide Temp, Rotl, F, K;
    var s1 := Round(s, t, w[t]);
    var s2 := Round(s1, t + 1, w[t + 1]);
    var s3 := Round(s2, t + 2, w[t + 2]);
    assert Rounds(h, w, t + 1) == s1;
    assert Rounds(h, w, t + 2) == s2;
    assert Rounds(h, w, t + 3) == s3;
  }

  lemma NoRounds(h: Hash, w: seq<Word>)
    ensures Rounds(h, w, 0) == h
  {
  }

  lemma ReadWord(block: Bytes, t: nat, a: Byte, b: Byte, c: Byte, d: Byte, w: Word)
    requires |block| == 64 && t < 16 && w == Join(a, b, c, d)
    requires block[4 * t] == a && block[4 * t + 1] == b && block[4 * t + 2] == c && block[4 * t + 3] == d
    ensures WordAt(block, t) == w
  {
    hide Join;
  }

  lemma DigestIs(m: Bytes, h: Hash, d: Bytes)
    requires h == Fold(Pad(m)) && |d| == 20 && forall i :: 0 <= i < 20 ==> d[i] == ByteOf(h, i)
    ensures Digest(m) == d
  {
    hide ByteOf, Fold, Pad;
  }

  lemma OneBlock(s: Bytes)
    requires |s| == 64
    ensures Fold(s) == Compress(INIT, s)
  {
    FoldNothing();
    FoldBlock([], s);
    assert [] + s == s;
  }

  lemma TwoBlocks(s: Bytes)
    requires |s| == 128
    ensures Fold(s) == Compress(Compress(INIT, s[..64]), s[64..])
  {
    OneBlock(s[..64]);
    FoldBlock(s[..64], s[64..]);
    assert s[..64] + s[64..] == s;
  }

  // ----- appendix A: "abc" -----

  lemma AbcWords(block: Bytes, w: seq<Word>)
    requires |block| == 64 && w == Schedule(block, 80)
    requires Four(w, 0, 0x61626380, 0x00000000, 0x00000000, 0x00000000)
    requires Four(w, 4, 0x00000000, 0x00000000, 0x00000000, 0x00000000)
    requires Four(w, 8, 0x00000000, 0x00000000, 0x00000000, 0x00000000)
    requires Four(w, 12, 0x00000000, 0x00000000, 0x00000000, 0x00000018)
    ensures Four(w, 16, 0xc2c4c700, 0x00000000, 0x00000030, 0x85898e01)
    ensures Four(w, 20, 0x00000000, 0x00000060, 0x0b131c03, 0x00000030)
    ensures Four(w, 24, 0x85898ec1, 0x16263806, 0x00000000, 0x00000180)
    ensures Four(w, 28, 0x2c4c700c, 0x000000f0, 0x93afb507, 0x5898e048)
    ensures Four(w, 32, 0x8e9a9202, 0x00000600, 0xb131c0f0, 0x16263bc6)
    ensures Four(w, 36, 0x4ebed41e, 0x626380a1, 0x16263806, 0x000018c0)
    ensures Four(w, 40, 0xd2e138c4, 0x00000f00, 0x3afb5079, 0x898e04e5)
    ensures Four(w, 44, 0xe2ba3c2b, 0x000060c0, 0x053a37cd, 0x74458547)
    ensures Four(w, 48, 0xda9415ed, 0x26380a16, 0x626383a1, 0x4ebf54de)
    ensures Four(w, 52, 0x3835b44b, 0x0000f600, 0x1e84c7a3, 0x98e04d98)
    ensures Four(w, 56, 0x651d16a0, 0x62658ca1, 0x458544d6, 0x44584cb7)
    ensures Four(w, 60, 0x7ba06619, 0x6380aea2, 0x0ae55269, 0x627b49a1)
    ensures Four(w, 64, 0x7cd45c9d, 0x000f0000, 0xfb50753a, 0xec6765e8)
    ensures Four(w, 68, 0xba3c2be2, 0x0060c000, 0x3a37cd05, 0x458546f4)
    ensures Four(w, 72, 0xb8599dd6, 0x380a1a26, 0x01e02203, 0xe7cc3456)
    ensures Four(w, 76, 0xe6e60b69, 0x00f60a00, 0x5795ef4f, 0x822e0879)
  {
    hide Schedule;
    MixFour(block, w, 16, 0xc2c4c700, 0x00000000, 0x00000030, 0x85898e01);
    MixFour(block, w, 20, 0x00000000, 0x00000060, 0x0b131c03, 0x00000030);
    MixFour(block, w, 24, 0x85898ec1, 0x16263806, 0x00000000, 0x00000180);
    MixFour(block, w, 28, 0x2c4c700c, 0x000000f0, 0x93afb507, 0x5898e048);
    MixFour(block, w, 32, 0x8e9a9202, 0x00000600, 0xb131c0f0, 0x16263bc6);
    MixFour(block, w, 36, 0x4ebed41e, 0x626380a1, 0x16263806, 0x000018c0);
    MixFour(block, w, 40, 0xd2e138c4, 0x00000f00, 0x3afb5079, 0x898e04e5);
    MixFour(block, w, 44, 0xe2ba3c2b, 0x000060c0, 0x053a37cd, 0x74458547);
    MixFour(block, w, 48, 0xda9415ed, 0x26380a16, 0x626383a1, 0x4ebf54de);
    MixFour(block, w, 52, 0x3835b44b, 0x0000f600, 0x1e84c7a3, 0x98e04d98);
    MixFour(block, w, 56, 0x651d16a0, 0x62658ca1, 0x458544d6, 0x44584cb7);
    MixFour(block, w, 60, 0x7ba06619, 0x6380aea2, 0x0ae55269, 0x627b49a1);
    MixFour(block, w, 64, 0x7cd45c9d, 0x000f0000, 0xfb50753a, 0xec6765e8);
    MixFour(block, w, 68, 0xba3c2be2, 0x0060c000, 0x3a37cd05, 0x458546f4);
    MixFour(block, w, 72, 0xb8599dd6, 0x380a1a26, 0x01e02203, 0xe7cc3456);
    MixFour(block, w, 76, 0xe6e60b69, 0x00f60a00, 0x5795ef4f, 0x822e0879);
  }

  lemma AbcRounds0(h: Hash, w: seq<Word>)
    requires |w| == 80 && Rounds(h, w, 0) == Hash(0x67452301, 0xefcdab89, 0x98badcfe, 0x10325476, 0xc3d2e1f0)
    requires Four(w, 0, 0x61626380, 0x00000000, 0x00000000, 0x00000000)
    requires Four(w, 4, 0x00000000, 0x00000000, 0x00000000, 0x00000000)
    requires Four(w, 8, 0x00000000, 0x00000000, 0x00000000, 0x00000000)
    requires Four(w, 12, 0x00000000, 0x00000000, 0x00000000, 0x00000018)
    requires Four(w, 16, 0xc2c4c700, 0x00000000, 0x00000030, 0x85898e01)
    ensures Rounds(h, w, 20) == Hash(0xfd9e1d7d, 0xdc64901d, 0x20aa99ca, 0xd3a49608, 0xc82f758b)
  {
    hide Rounds;
    FourRounds(h, w, 0, Hash(0x67452301, 0xefcdab89, 0x98badcfe, 0x10325476, 0xc3d2e1f0),
      0x0116fc33, 0x8990536d, 0xa1390f08, 0xcdd8e11b);
    FourRounds(h, w, 4, Hash(0xcdd8e11b, 0xa1390f08, 0x626414db, 0xc045bf0c, 0x59d148c0),
      0xcfd499de, 0x3fc7ca40, 0x993e30c1, 0x9e8c07d4);
    FourRounds(h, w, 8, Hash(0x9e8c07d4, 0x993e30c1, 0x0ff1f290, 0xb3f52677, 0xf3763846),
      0x4b6ae328, 0x8351f929, 0xfbda9e89, 0x63188fe4);
    FourRounds(h, w, 12, Hash(0x63188fe4, 0xfbda9e89, 0x60d47e4a, 0x12dab8ca, 0x27a301f5),
      0x4607b664, 0x9128f695, 0x196bee77, 0x20bdd62f);
    FourRounds(h, w, 16, Hash(0x20bdd62f, 0x196bee77, 0x644a3da5, 0x1181ed99, 0x18c623f9),
      0x4e925823, 0x82aa6728, 0xdc64901d, 0xfd9e1d7d);
  }

  lemma AbcRounds20(h: Hash, w: seq<Word>)
    requires |w| == 80 && Rounds(h, w, 20) == Hash(0xfd9e1d7d, 0xdc64901d, 0x20aa99ca, 0xd3a49608, 0xc82f758b)
    requires Four(w, 20, 0x00000000, 0x00000060, 0x0b131c03, 0x00000030)
    requires Four(w, 24, 0x85898ec1, 0x16263806, 0x00000000, 0x00000180)
    requires Four(w, 28, 0x2c4c700c, 0x000000f0, 0x93afb507, 0x5898e048)
    requires Four(w, 32, 0x8e9a9202, 0x00000600, 0xb131c0f0, 0x16263bc6)
    requires Four(w, 36, 0x4ebed41e, 0x626380a1, 0x16263806, 0x000018c0)
    ensures Rounds(h, w, 40) == Hash(0x32de1cba, 0x4c986405, 0xf718e5cf, 0x03d447f6, 0xf72eec32)
  {
    hide Rounds;
    FourRounds(h, w, 20, Hash(0xfd9e1d7d, 0xdc64901d, 0x20aa99ca, 0xd3a49608, 0xc82f758b),
      0x1a37b0ca, 0x33a23bfc, 0x21283486, 0xd541f12d);
    FourRounds(h, w, 24, Hash(0xd541f12d, 0x21283486, 0x0ce88eff, 0x868dec32, 0x7f67875f),
      0xc7567dc6, 0x48413ba4, 0xbe35fbd5, 0x4aa84d97);
    FourRounds(h, w, 28, Hash(0x4aa84d97, 0xbe35fbd5, 0x12104ee9, 0xb1d59f71, 0x75507c4b),
      0x8370b52e, 0xc5fbaf5d, 0x1267b407, 0x3b845d33);
    FourRounds(h, w, 32, Hash(0x3b845d33, 0x1267b407, 0x717eebd7, 0xa0dc2d4b, 0xd2aa1365),
      0x046faa0a, 0x2c0ebc11, 0x21796ad4, 0xdcbbb0cb);
    FourRounds(h, w, 36, Hash(0xdcbbb0cb, 0x21796ad4, 0x4b03af04, 0x811bea82, 0xcee1174c),
      0x0f511fd8, 0xdc63973f, 0x4c986405, 0x32de1cba);
  }

  lemma AbcRounds40(h: Hash, w: seq<Word>)
    requires |w| == 80 && Rounds(h, w, 40) == Hash(0x32de1cba, 0x4c986405, 0xf718e5cf, 0x03d447f6, 0xf72eec32)
    requires Four(w, 40, 0xd2e138c4, 0x00000f00, 0x3afb5079, 0x898e04e5)
    requires Four(w, 44, 0xe2ba3c2b, 0x000060c0, 0x053a37cd, 0x74458547)
    requires Four(w, 48, 0xda9415ed, 0x26380a16, 0x626383a1, 0x4ebf54de)
    requires Four(w, 52, 0x3835b44b, 0x0000f600, 0x1e84c7a3, 0x98e04d98)
    requires Four(w, 56, 0x651d16a0, 0x62658ca1, 0x458544d6, 0x44584cb7)
    ensures Rounds(h, w, 60) == Hash(0x3f52de5a, 0x09d785fd, 0x3498bfd4, 0xf211824f, 0xd79915ab)
  {
    hide Rounds;
    FourRounds(h, w, 40, Hash(0x32de1cba, 0x4c986405, 0xf718e5cf, 0x03d447f6, 0xf72eec32),
      0xfc87dedf, 0x970a0d5c, 0x7f193dc5, 0xee1b1aaf);
    FourRounds(h, w, 44, Hash(0xee1b1aaf, 0x7f193dc5, 0x25c28357, 0xff21f7b7, 0x8cb7872e),
      0x40f28e09, 0x1c51e1f2, 0xa01b846c, 0xbead02ca);
    FourRounds(h, w, 48, Hash(0xbead02ca, 0xa01b846c, 0x8714787c, 0x503ca382, 0xfb86c6ab),
      0xbaf39337, 0x120731c5, 0x641db2ce, 0x3847ad66);
    FourRounds(h, w, 52, Hash(0x3847ad66, 0x641db2ce, 0x4481cc71, 0xeebce4cd, 0xafab40b2),
      0xe490436d, 0x27e9f1d8, 0x7b71f76d, 0x5e6456af);
    FourRounds(h, w, 56, Hash(0x5e6456af, 0x7b71f76d, 0x09fa7c76, 0x792410db, 0x8e11eb59),
      0xc846093f, 0xd262ff50, 0x09d785fd, 0x3f52de5a);
  }

  lemma AbcRounds60(h: Hash, w: seq<Word>)
    requires |w| == 80 && Rounds(h, w, 60) == Hash(0x3f52de5a, 0x09d785fd, 0x3498bfd4, 0xf211824f, 0xd79915ab)
    requires Four(w, 60, 0x7ba06619, 0x6380aea2, 0x0ae55269, 0x627b49a1)
    requires Four(w, 64, 0x7cd45c9d, 0x000f0000, 0xfb50753a, 0xec6765e8)
    requires Four(w, 68, 0xba3c2be2, 0x0060c000, 0x3a37cd05, 0x458546f4)
    requires Four(w, 72, 0xb8599dd6, 0x380a1a26, 0x01e02203, 0xe7cc3456)
    requires Four(w, 76, 0xe6e60b69, 0x00f60a00, 0x5795ef4f, 0x822e0879)
    ensures Rounds(h, w, 80) == Hash(0x42541b35, 0x5738d5e1, 0x21834873, 0x681e6df6, 0xd8fdf6ad)
  {
    hide Rounds;
    FourRounds(h, w, 60, Hash(0x3f52de5a, 0x09d785fd, 0x3498bfd4, 0xf211824f, 0xd79915ab),
      0xd756c147, 0x548c9cb2, 0xb66c020b, 0x6b61c9e1);
    FourRounds(h, w, 64, Hash(0x6b61c9e1, 0xb66c020b, 0x9523272c, 0xf5d5b051, 0x8fd4b796),
      0x19dfa7ac, 0x101655f9, 0x0c3df2b4, 0x78dd4d2b);
    FourRounds(h, w, 68, Hash(0x78dd4d2b, 0x0c3df2b4, 0x4405957e, 0x0677e9eb, 0x5ad87278),
      0x497093c0, 0x3f2588c2, 0xc199f8c7, 0x39859de7);
    FourRounds(h, w, 72, Hash(0x39859de7, 0xc199f8c7, 0x8fc96230, 0x125c24f0, 0xde37534a),
      0xedb42de4, 0x11793f6f, 0x5ee76897, 0x63f7dab7);
    FourRounds(h, w, 76, Hash(0x63f7dab7, 0x5ee76897, 0xc45e4fdb, 0x3b6d0b79, 0xce616779),
      0xa079b7d9, 0x860d21cc, 0x5738d5e1, 0x42541b35);
  }

  lemma AbcBlock(h: Hash, block: Bytes)
    requires |block| == 64 && h == Hash(0x67452301, 0xefcdab89, 0x98badcfe, 0x10325476, 0xc3d2e1f0)
    requires Reads(block, 0, 0x61626380, 0x00000000, 0x00000000, 0x00000000)
    requires Reads(block, 4, 0x00000000, 0x00000000, 0x00000000, 0x00000000)
    requires Reads(block, 8, 0x00000000, 0x00000000, 0x00000000, 0x00000000)
    requires Reads(block, 12, 0x00000000, 0x00000000, 0x00000000, 0x00000018)
    ensures Compress(h, block) == Hash(0xa9993e36, 0x4706816a, 0xba3e2571, 0x7850c26c, 0x9cd0d89d)
  {
    hide Schedule, Rounds, WordAt, Four, Reads;
    var w := Schedule(block, 80);
    ReadFour(block, w, 0, 0x61626380, 0x00000000, 0x00000000, 0x00000000);
    ReadFour(block, w, 4, 0x00000000, 0x00000000, 0x00000000, 0x00000000);
    ReadFour(block, w, 8, 0x00000000, 0x00000000, 0x00000000, 0x00000000);
    ReadFour(block, w, 12, 0x00000000, 0x00000000, 0x00000000, 0x00000018);
    AbcWords(block, w);
    NoRounds(h, w);
    AbcRounds0(h, w);
    AbcRounds20(h, w);
    AbcRounds40(h, w);
    AbcRounds60(h, w);
  }

  lemma AbcPadded(m: Bytes)
    requires m == [0x61, 0x62, 0x63]
    ensures |Pad(m)| == 64 && Pad(m)[0] == 0x61 && Pad(m)[1] == 0x62 && Pad(m)[2] == 0x63 && Pad(m)[3] == 0x80
    ensures Pad(m)[63] == 0x18 && forall k :: 4 <= k < 63 ==> Pad(m)[k] == 0
  {
    var p := Pad(m);
    assert p[60..] == [0, 0, 0, 0x18];
    assert p[63] == p[60..][3] && p[62] == p[60..][2] && p[61] == p[60..][1] && p[60] == p[60..][0];
  }

  lemma AbcRead(block: Bytes)
    requires |block| == 64 && block[0] == 0x61 && block[1] == 0x62 && block[2] == 0x63 && block[3] == 0x80
    requires block[63] == 0x18 && forall k :: 4 <= k < 63 ==> block[k] == 0
    ensures Reads(block, 0, 0x61626380, 0x00000000, 0x00000000, 0x00000000)
    ensures Reads(block, 4, 0x00000000, 0x00000000, 0x00000000, 0x00000000)
    ensures Reads(block, 8, 0x00000000, 0x00000000, 0x00000000, 0x00000000)
    ensures Reads(block, 12, 0x00000000, 0x00000000, 0x00000000, 0x00000018)
  {
    hide WordAt;
    ReadWord(block, 0, 0x61, 0x62, 0x63, 0x80, 0x61626380);
    ReadWord(block, 1, 0x00, 0x00, 0x00, 0x00, 0x00000000);
    ReadWord(block, 2, 0x00, 0x00, 0x00, 0x00, 0x00000000);
    ReadWord(block, 3, 0x00, 0x00, 0x00, 0x00, 0x00000000);
    ReadWord(block, 4, 0x00, 0x00, 0x00, 0x00, 0x00000000);
    ReadWord(block, 5, 0x00, 0x00, 0x00, 0x00, 0x00000000);
    ReadWord(block, 6, 0x00, 0x00, 0x00, 0x00, 0x00000000);
    ReadWord(block, 7, 0x00, 0x00, 0x00, 0x00, 0x00000000);
    ReadWord(block, 8, 0x00, 0x00, 0x00, 0x00, 0x00000000);
    ReadWord(block, 9, 0x00, 0x00, 0x00, 0x00, 0x00000000);
    ReadWord(block, 10, 0x00, 0x00, 0x00, 0x00, 0x00000000);
    ReadWord(block, 11, 0x00, 0x00, 0x00, 0x00, 0x00000000);
    ReadWord(block, 12, 0x00, 0x00, 0x00, 0x00, 0x00000000);
    ReadWord(block, 13, 0x00, 0x00, 0x00, 0x00, 0x00000000);
    ReadWord(block, 14, 0x00, 0x00, 0x00, 0x00, 0x00000000);
    ReadWord(block, 15, 0x00, 0x00, 0x00, 0x18, 0x00000018);
  }

  lemma FoldOfAbc(m: Bytes)
    requires m == [0x61, 0x62, 0x63]
    ensures Fold(Pad(m)) == Hash(0xa9993e36, 0x4706816a, 0xba3e2571, 0x7850c26c, 0x9cd0d89d)
  {
    AbcPadded(m);
    hide *;
    AbcRead(Pad(m));
    AbcBlock(INIT, Pad(m));
    OneBlock(Pad(m));
  }

  lemma AbcBytes0(h: Hash)
    requires h == Hash(0xa9993e36, 0x4706816a, 0xba3e2571, 0x7850c26c, 0x9cd0d89d)
    ensures ByteOf(h, 0) == 0xa9 && ByteOf(h, 1) == 0x99 && ByteOf(h, 2) == 0x3e && ByteOf(h, 3) == 0x36
  {
  }

  lemma AbcBytes4(h: Hash)
    requires h == Hash(0xa9993e36, 0x4706816a, 0xba3e2571, 0x7850c26c, 0x9cd0d89d)
    ensures ByteOf(h, 4) == 0x47 && ByteOf(h, 5) == 0x06 && ByteOf(h, 6) == 0x81 && ByteOf(h, 7) == 0x6a
  {
  }

  lemma AbcBytes8(h: Hash)
    requires h == Hash(0xa9993e36, 0x4706816a, 0xba3e2571, 0x7850c26c, 0x9cd0d89d)
    ensures ByteOf(h, 8) == 0xba && ByteOf(h, 9) == 0x3e && ByteOf(h, 10) == 0x25 && ByteOf(h, 11) == 0x71
  {
  }

  lemma AbcBytes12(h: Hash)
    requires h == Hash(0xa9993e36, 0x4706816a, 0xba3e2571, 0x7850c26c, 0x9cd0d89d)
    ensures ByteOf(h, 12) == 0x78 && ByteOf(h, 13) == 0x50 && ByteOf(h, 14) == 0xc2 && ByteOf(h, 15) == 0x6c
  {
  }

  lemma AbcBytes16(h: Hash)
    requires h == Hash(0xa9993e36, 0x4706816a, 0xba3e2571, 0x7850c26c, 0x9cd0d89d)
    ensures ByteOf(h, 16) == 0x9c && ByteOf(h, 17) == 0xd0 && ByteOf(h, 18) == 0xd8 && ByteOf(h, 19) == 0x9d
  {
  }

  lemma DigestOfAbc(m: Bytes)
    requires m == [0x61, 0x62, 0x63]
    ensures Digest(m) == [
      0xa9, 0x99, 0x3e, 0x36, 0x47, 0x06, 0x81, 0x6a, 0xba, 0x3e,
      0x25, 0x71, 0x78, 0x50, 0xc2, 0x6c, 0x9c, 0xd0, 0xd8, 0x9d]
  {
    hide *;
    FoldOfAbc(m);
    AbcBytes0(Fold(Pad(m)));
    AbcBytes4(Fold(Pad(m)));
    AbcBytes8(Fold(Pad(m)));
    AbcBytes12(Fold(Pad(m)));
    AbcBytes16(Fold(Pad(m)));
    DigestIs(m, Fold(Pad(m)), [
      0xa9, 0x99, 0x3e, 0x36, 0x47, 0x06, 0x81, 0x6a, 0xba, 0x3e,
      0x25, 0x71, 0x78, 0x50, 0xc2, 0x6c, 0x9c, 0xd0, 0xd8, 0x9d]);
  }

  // ----- appendix B: two blocks -----

  lemma FirstWords(block: Bytes, w: seq<Word>)
    requires |block| == 64 && w == Schedule(block, 80)
    requires Four(w, 0, 0x61626364, 0x62636465, 0x63646566, 0x64656667)
    requires Four(w, 4, 0x65666768, 0x66676869, 0x6768696a, 0x68696a6b)
    requires Four(w, 8, 0x696a6b6c, 0x6a6b6c6d, 0x6b6c6d6e, 0x6c6d6e6f)
    requires Four(w, 12, 0x6d6e6f70, 0x6e6f7071, 0x80000000, 0x00000000)
    ensures Four(w, 16, 0x0a063a3e, 0xd8dadcdf, 0xdadcdec0, 0xc8d2b4be)
    ensures Four(w, 20, 0x6f757b5b, 0x757b5967, 0x8da16d70, 0xdaeefaba)
    ensures Four(w, 24, 0xfaf6cab6, 0xa6fb675a, 0x0c604cc8, 0x604cc02c)
    ensures Four(w, 28, 0x49c0e6e2, 0x2ee8cbbc, 0xcfd72ec4, 0x97e9810e)
    ensures Four(w, 32, 0x0989cbe8, 0xf24843fe, 0x5c40d0ba, 0xa8d9cc3b)
    ensures Four(w, 36, 0xb2b9666e, 0xba7b71b7, 0x20b28a72, 0xb28af500)
    ensures Four(w, 40, 0x8ac87842, 0x289addf4, 0x56d51f21, 0xd96b7fd2)
    ensures Four(w, 44, 0x3868e778, 0xab5e4848, 0x7f0e2118, 0xde87a111)
    ensures Four(w, 48, 0xe8be56b0, 0x1a0ae652, 0xcd5611c8, 0x46ef29dc)
    ensures Four(w, 52, 0x60d3da6d, 0xddf3ba6e, 0x2737f5e9, 0x4888a710)
    ensures Four(w, 56, 0xd2a1177b, 0x9999633b, 0xd6c69d03, 0xccf6127b)
    ensures Four(w, 60, 0x7c58fe6d, 0xfdd99c68, 0xf8e32074, 0xe0ba3c7d)
    ensures Four(w, 64, 0x152198d6, 0x7b3f1982, 0x37f2d5b7, 0x8596323e)
    ensures Four(w, 68, 0x810790d6, 0xbea0a942, 0x11c7e1b1, 0x6158d101)
    ensures Four(w, 72, 0x5fcd77d9, 0x7f2f12e6, 0xf868cfb1, 0xd6e997e9)
    ensures Four(w, 76, 0xf526b852, 0xb7578dcc, 0x55d99df4, 0x1ff69958)
  {
    hide Schedule;
    MixFour(block, w, 16, 0x0a063a3e, 0xd8dadcdf, 0xdadcdec0, 0xc8d2b4be);
    MixFour(block, w, 20, 0x6f757b5b, 0x757b5967, 0x8da16d70, 0xdaeefaba);
    MixFour(block, w, 24, 0xfaf6cab6, 0xa6fb675a, 0x0c604cc8, 0x604cc02c);
    MixFour(block, w, 28, 0x49c0e6e2, 0x2ee8cbbc, 0xcfd72ec4, 0x97e9810e);
    MixFour(block, w, 32, 0x0989cbe8, 0xf24843fe, 0x5c40d0ba, 0xa8d9cc3b);
    MixFour(block, w, 36, 0xb2b9666e, 0xba7b71b7, 0x20b28a72, 0xb28af500);
    MixFour(block, w, 40, 0x8ac87842, 0x289addf4, 0x56d51f21, 0xd96b7fd2);
    MixFour(block, w, 44, 0x3868e778, 0xab5e4848, 0x7f0e2118, 0xde87a111);
    MixFour(block, w, 48, 0xe8be56b0, 0x1a0ae652, 0xcd5611c8, 0x46ef29dc);
    MixFour(block, w, 52, 0x60d3da6d, 0xddf3ba6e, 0x2737f5e9, 0x4888a710);
    MixFour(block, w, 56, 0xd2a1177b, 0x9999633b, 0xd6c69d03, 0xccf6127b);
    MixFour(block, w, 60, 0x7c58fe6d, 0xfdd99c68, 0xf8e32074, 0xe0ba3c7d);
    MixFour(block, w, 64, 0x152198d6, 0x7b3f1982, 0x37f2d5b7, 0x8596323e);
    MixFour(block, w, 68, 0x810790d6, 0xbea0a942, 0x11c7e1b1, 0x6158d101);
    MixFour(block, w, 72, 0x5fcd77d9, 0x7f2f12e6, 0xf868cfb1, 0xd6e997e9);
    MixFour(block, w, 76, 0xf526b852, 0xb7578dcc, 0x55d99df4, 0x1ff69958);
  }

  lemma FirstRounds0(h: Hash, w: seq<Word>)
    requires |w| == 80 && Rounds(h, w, 0) == Hash(0x67452301, 0xefcdab89, 0x98badcfe, 0x10325476, 0xc3d2e1f0)
    requires Four(w, 0, 0x61626364, 0x62636465, 0x63646566, 0x64656667)
    requires Four(w, 4, 0x65666768, 0x66676869, 0x6768696a, 0x68696a6b)
    requires Four(w, 8, 0x696a6b6c, 0x6a6b6c6d, 0x6b6c6d6e, 0x6c6d6e6f)
    requires Four(w, 12, 0x6d6e6f70, 0x6e6f7071, 0x80000000, 0x00000000)
    requires Four(w, 16, 0x0a063a3e, 0xd8dadcdf, 0xdadcdec0, 0xc8d2b4be)
    ensures Rounds(h, w, 20) == Hash(0x6c445652, 0x944b1bd1, 0x509ae70d, 0x1ac1a012, 0x5098df8e)
  {
    hide Rounds;
    FourRounds(h, w, 0, Hash(0x67452301, 0xefcdab89, 0x98badcfe, 0x10325476, 0xc3d2e1f0),
      0x0116fc17, 0xebf3b452, 0x5109913a, 0x2c4f6eac);
    FourRounds(h, w, 4, Hash(0x2c4f6eac, 0x5109913a, 0xbafced14, 0xc045bf05, 0x59d148c0),
      0x33f4ae5b, 0x96b85189, 0xdb04cb58, 0x45833f0f);
    FourRounds(h, w, 8, Hash(0x45833f0f, 0xdb04cb58, 0x65ae1462, 0xccfd2b96, 0x0b13dbab),
      0xc565c35e, 0x6350afda, 0x8993ea77, 0xe19ecaa2);
    FourRounds(h, w, 12, Hash(0xe19ecaa2, 0x8993ea77, 0x98d42bf6, 0xb15970d7, 0xd160cfc3),
      0x8603481e, 0x32f94a85, 0xb2e7a8be, 0x42637e39);
    FourRounds(h, w, 16, Hash(0x42637e39, 0xb2e7a8be, 0x4cbe52a1, 0xa180d207, 0xb867b2a8),
      0x6b068048, 0x426b9c35, 0x944b1bd1, 0x6c445652);
  }

  lemma FirstRounds20(h: Hash, w: seq<Word>)
    requires |w| == 80 && Rounds(h, w, 20) == Hash(0x6c445652, 0x944b1bd1, 0x509ae70d, 0x1ac1a012, 0x5098df8e)
    requires Four(w, 20, 0x6f757b5b, 0x757b5967, 0x8da16d70, 0xdaeefaba)
    requires Four(w, 24, 0xfaf6cab6, 0xa6fb675a, 0x0c604cc8, 0x604cc02c)
    requires Four(w, 28, 0x49c0e6e2, 0x2ee8cbbc, 0xcfd72ec4, 0x97e9810e)
    requires Four(w, 32, 0x0989cbe8, 0xf24843fe, 0x5c40d0ba, 0xa8d9cc3b)
    requires Four(w, 36, 0xb2b9666e, 0xba7b71b7, 0x20b28a72, 0xb28af500)
    ensures Rounds(h, w, 40) == Hash(0xadeb7478, 0x24957f22, 0x50fe1eba, 0x564cff26, 0xaadf0cbb)
  {
    hide Rounds;
    FourRounds(h, w, 20, Hash(0x6c445652, 0x944b1bd1, 0x509ae70d, 0x1ac1a012, 0x5098df8e),
      0x95836da5, 0x09511177, 0xe2b92dc4, 0xfd224575);
    FourRounds(h, w, 24, Hash(0xfd224575, 0xe2b92dc4, 0xc254445d, 0x6560db69, 0x9b111594),
      0xeeb82d9a, 0x5a142c1a, 0x2972f7c7, 0xd526a644);
    FourRounds(h, w, 28, Hash(0xd526a644, 0x2972f7c7, 0x96850b06, 0xbbae0b66, 0x7f48915d),
      0xe1122421, 0x05b457b2, 0xa9c84bec, 0x52e31f60);
    FourRounds(h, w, 32, Hash(0x52e31f60, 0xa9c84bec, 0x816d15ec, 0x78448908, 0x3549a991),
      0x5af3242c, 0x31c756a9, 0xe9ac987c, 0xab7c32ee);
    FourRounds(h, w, 36, Hash(0xab7c32ee, 0xe9ac987c, 0x4c71d5aa, 0x16bcc90b, 0x14b8c7d8),
      0x5933fc99, 0x43f87ae9, 0x24957f22, 0xadeb7478);
  }

  lemma FirstRounds40(h: Hash, w: seq<Word>)
    requires |w| == 80 && Rounds(h, w, 40) == Hash(0xadeb7478, 0x24957f22, 0x50fe1eba, 0x564cff26, 0xaadf0cbb)
    requires Four(w, 40, 0x8ac87842, 0x289addf4, 0x56d51f21, 0xd96b7fd2)
    requires Four(w, 44, 0x3868e778, 0xab5e4848, 0x7f0e2118, 0xde87a111)
    requires Four(w, 48, 0xe8be56b0, 0x1a0ae652, 0xcd5611c8, 0x46ef29dc)
    requires Four(w, 52, 0x60d3da6d, 0xddf3ba6e, 0x2737f5e9, 0x4888a710)
    requires Four(w, 56, 0xd2a1177b, 0x9999633b, 0xd6c69d03, 0xccf6127b)
    ensures Rounds(h, w, 60) == Hash(0x9ef775c3, 0xf03d3782, 0xeb029e53, 0xe9a06dc8, 0x1ddb0e44)
  {
    hide Rounds;
    FourRounds(h, w, 40, Hash(0xadeb7478, 0x24957f22, 0x50fe1eba, 0x564cff26, 0xaadf0cbb),
      0xd70e5010, 0x79bcfb08, 0xf9bcb8de, 0x633e9561);
    FourRounds(h, w, 44, Hash(0x633e9561, 0xf9bcb8de, 0x1e6f3ec2, 0x35c39404, 0x2b7add1e),
      0x98c1ea64, 0xc6ea241e, 0xa2ad4f02, 0xc8a69090);
    FourRounds(h, w, 48, Hash(0xc8a69090, 0xa2ad4f02, 0xb1ba8907, 0x26307a99, 0x58cfa558),
      0x88341600, 0x7e846f58, 0x86e358ba, 0x8d2e76c8);
    FourRounds(h, w, 52, Hash(0x8d2e76c8, 0x86e358ba, 0x1fa11bd6, 0x220d0580, 0x3229a424),
      0xce892e10, 0xedea95b1, 0x36d1230a, 0x776c3910);
    FourRounds(h, w, 56, Hash(0x776c3910, 0x36d1230a, 0x7b7aa56c, 0x33a24b84, 0x234b9db2),
      0xa681b723, 0xac0a794f, 0xf03d3782, 0x9ef775c3);
  }

  lemma FirstRounds60(h: Hash, w: seq<Word>)
    requires |w| == 80 && Rounds(h, w, 60) == Hash(0x9ef775c3, 0xf03d3782, 0xeb029e53, 0xe9a06dc8, 0x1ddb0e44)
    requires Four(w, 60, 0x7c58fe6d, 0xfdd99c68, 0xf8e32074, 0xe0ba3c7d)
    requires Four(w, 64, 0x152198d6, 0x7b3f1982, 0x37f2d5b7, 0x8596323e)
    requires Four(w, 68, 0x810790d6, 0xbea0a942, 0x11c7e1b1, 0x6158d101)
    requires Four(w, 72, 0x5fcd77d9, 0x7f2f12e6, 0xf868cfb1, 0xd6e997e9)
    requires Four(w, 76, 0xf526b852, 0xb7578dcc, 0x55d99df4, 0x1ff69958)
    ensures Rounds(h, w, 80) == Hash(0x8ce34517, 0xd3ad7c25, 0x6b4e1883, 0x74351cd2, 0x86838382)
  {
    hide Rounds;
    FourRounds(h, w, 60, Hash(0x9ef775c3, 0xf03d3782, 0xeb029e53, 0xe9a06dc8, 0x1ddb0e44),
      0x36254b13, 0x4080d4dc, 0x2bfaf7a8, 0x513f9ca0);
    FourRounds(h, w, 64, Hash(0x513f9ca0, 0x2bfaf7a8, 0x10203537, 0xcd8952c4, 0xe7bddd70),
      0xe5895c81, 0x1037d2d5, 0x14a82da9, 0x6d17c9fd);
    FourRounds(h, w, 68, Hash(0x6d17c9fd, 0x14a82da9, 0x440df4b5, 0x79625720, 0x144fe728),
      0x2c7b07bd, 0xfdf6efff, 0x112b96e3, 0x84065712);
    FourRounds(h, w, 72, Hash(0x84065712, 0x112b96e3, 0xff7dbbff, 0x4b1ec1ef, 0x5b45f27f),
      0xab89fb71, 0xc5210e35, 0x352d9f4b, 0x1a0e0e0a);
    FourRounds(h, w, 76, Hash(0x1a0e0e0a, 0x352d9f4b, 0x7148438d, 0x6ae27edc, 0xa10195c4),
      0xd0d47349, 0xad38620d, 0xd3ad7c25, 0x8ce34517);
  }

  lemma FirstBlock(h: Hash, block: Bytes)
    requires |block| == 64 && h == Hash(0x67452301, 0xefcdab89, 0x98badcfe, 0x10325476, 0xc3d2e1f0)
    requires Reads(block, 0, 0x61626364, 0x62636465, 0x63646566, 0x64656667)
    requires Reads(block, 4, 0x65666768, 0x66676869, 0x6768696a, 0x68696a6b)
    requires Reads(block, 8, 0x696a6b6c, 0x6a6b6c6d, 0x6b6c6d6e, 0x6c6d6e6f)
    requires Reads(block, 12, 0x6d6e6f70, 0x6e6f7071, 0x80000000, 0x00000000)
    ensures Compress(h, block) == Hash(0xf4286818, 0xc37b27ae, 0x0408f581, 0x84677148, 0x4a566572)
  {
    hide Schedule, Rounds, WordAt, Four, Reads;
    var w := Schedule(block, 80);
    ReadFour(block, w, 0, 0x61626364, 0x62636465, 0x63646566, 0x64656667);
    ReadFour(block, w, 4, 0x65666768, 0x66676869, 0x6768696a, 0x68696a6b);
    ReadFour(block, w, 8, 0x696a6b6c, 0x6a6b6c6d, 0x6b6c6d6e, 0x6c6d6e6f);
    ReadFour(block, w, 12, 0x6d6e6f70, 0x6e6f7071, 0x80000000, 0x00000000);
    FirstWords(block, w);
    NoRounds(h, w);
    FirstRounds0(h, w);
    FirstRounds20(h, w);
    FirstRounds40(h, w);
    FirstRounds60(h, w);
  }

  lemma SecondWords(block: Bytes, w: seq<Word>)
    requires |block| == 64 && w == Schedule(block, 80)
    requires Four(w, 0, 0x00000000, 0x00000000, 0x00000000, 0x00000000)
    requires Four(w, 4, 0x00000000, 0x00000000, 0x00000000, 0x00000000)
    requires Four(w, 8, 0x00000000, 0x00000000, 0x00000000, 0x00000000)
    requires Four(w, 12, 0x00000000, 0x00000000, 0x00000000, 0x000001c0)
    ensures Four(w, 16, 0x00000000, 0x00000000, 0x00000380, 0x00000000)
    ensures Four(w, 20, 0x00000000, 0x00000700, 0x00000000, 0x00000380)
    ensures Four(w, 24, 0x00000e00, 0x00000000, 0x00000000, 0x00001c00)
    ensures Four(w, 28, 0x00000000, 0x00000d80, 0x00003800, 0x00000480)
    ensures Four(w, 32, 0x00000000, 0x00007000, 0x00000e00, 0x00003600)
    ensures Four(w, 36, 0x0000e000, 0x00000e00, 0x00000000, 0x0001ce00)
    ensures Four(w, 40, 0x00000000, 0x0000d800, 0x00038000, 0x00004f00)
    ensures Four(w, 44, 0x00000000, 0x00070e00, 0x0000ee00, 0x00037500)
    ensures Four(w, 48, 0x000e0000, 0x0000e000, 0x00003600, 0x001cee00)
    ensures Four(w, 52, 0x00000000, 0x000df000, 0x00380000, 0x0004c600)
    ensures Four(w, 56, 0x0000e000, 0x0070ee00, 0x000ee000, 0x00369e00)
    ensures Four(w, 60, 0x00e00000, 0x000ed600, 0x0000e000, 0x01cea600)
    ensures Four(w, 64, 0x00000000, 0x00d80000, 0x0380e000, 0x004f0000)
    ensures Four(w, 68, 0x00000000, 0x070e0000, 0x00ee0000, 0x03751c00)
    ensures Four(w, 72, 0x0e000000, 0x00e0e000, 0x00363800, 0x1cee9000)
    ensures Four(w, 76, 0x00000000, 0x0df09000, 0x3800e000, 0x04c77400)
  {
    hide Schedule;
    MixFour(block, w, 16, 0x00000000, 0x00000000, 0x00000380, 0x00000000);
    MixFour(block, w, 20, 0x00000000, 0x00000700, 0x00000000, 0x00000380);
    MixFour(block, w, 24, 0x00000e00, 0x00000000, 0x00000000, 0x00001c00);
    MixFour(block, w, 28, 0x00000000, 0x00000d80, 0x00003800, 0x00000480);
    MixFour(block, w, 32, 0x00000000, 0x00007000, 0x00000e00, 0x00003600);
    MixFour(block, w, 36, 0x0000e000, 0x00000e00, 0x00000000, 0x0001ce00);
    MixFour(block, w, 40, 0x00000000, 0x0000d800, 0x00038000, 0x00004f00);
    MixFour(block, w, 44, 0x00000000, 0x00070e00, 0x0000ee00, 0x00037500);
    MixFour(block, w, 48, 0x000e0000, 0x0000e000, 0x00003600, 0x001cee00);
    MixFour(block, w, 52, 0x00000000, 0x000df000, 0x00380000, 0x0004c600);
    MixFour(block, w, 56, 0x0000e000, 0x0070ee00, 0x000ee000, 0x00369e00);
    MixFour(block, w, 60, 0x00e00000, 0x000ed600, 0x0000e000, 0x01cea600);
    MixFour(block, w, 64, 0x00000000, 0x00d80000, 0x0380e000, 0x004f0000);
    MixFour(block, w, 68, 0x00000000, 0x070e0000, 0x00ee0000, 0x03751c00);
    MixFour(block, w, 72, 0x0e000000, 0x00e0e000, 0x00363800, 0x1cee9000);
    MixFour(block, w, 76, 0x00000000, 0x0df09000, 0x3800e000, 0x04c77400);
  }

  lemma SecondRounds0(h: Hash, w: seq<Word>)
    requires |w| == 80 && Rounds(h, w, 0) == Hash(0xf4286818, 0xc37b27ae, 0x0408f581, 0x84677148, 0x4a566572)
    requires Four(w, 0, 0x00000000, 0x00000000, 0x00000000, 0x00000000)
    requires Four(w, 4, 0x00000000, 0x00000000, 0x00000000, 0x00000000)
    requires Four(w, 8, 0x00000000, 0x00000000, 0x00000000, 0x00000000)
    requires Four(w, 12, 0x00000000, 0x00000000, 0x00000000, 0x000001c0)
    requires Four(w, 16, 0x00000000, 0x00000000, 0x00000380, 0x00000000)
    ensures Rounds(h, w, 20) == Hash(0xd8992153, 0xc2eb709f, 0x2946d62f, 0x9541f6db, 0x365dc8d8)
  {
    hide Rounds;
    FourRounds(h, w, 0, Hash(0xf4286818, 0xc37b27ae, 0x0408f581, 0x84677148, 0x4a566572),
      0x2df257e9, 0x4d3dc58f, 0xc352bb05, 0xeef743c6);
    FourRounds(h, w, 4, Hash(0xeef743c6, 0xc352bb05, 0xd34f7163, 0x4b7c95fa, 0x3d0a1a06),
      0x41e34277, 0x5443915c, 0xe7fa0377, 0xc6946813);
    FourRounds(h, w, 8, Hash(0xc6946813, 0xe7fa0377, 0x1510e457, 0xd078d09d, 0xbbbdd0f1),
      0xfdde1de1, 0xb8538aca, 0x6ba94f63, 0x43a2792f);
    FourRounds(h, w, 12, Hash(0x43a2792f, 0x6ba94f63, 0xae14e2b2, 0x7f778778, 0xf1a51a04),
      0xfecd7bbf, 0xa2604ca8, 0x258b0baa, 0xd9772360);
    FourRounds(h, w, 16, Hash(0xd9772360, 0x258b0baa, 0x2898132a, 0xffb35eef, 0xd0e89e4b),
      0x5507db6e, 0xa51b58bc, 0xc2eb709f, 0xd8992153);
  }

  lemma SecondRounds20(h: Hash, w: seq<Word>)
    requires |w| == 80 && Rounds(h, w, 20) == Hash(0xd8992153, 0xc2eb709f, 0x2946d62f, 0x9541f6db, 0x365dc8d8)
    requires Four(w, 20, 0x00000000, 0x00000700, 0x00000000, 0x00000380)
    requires Four(w, 24, 0x00000e00, 0x00000000, 0x00000000, 0x00001c00)
    requires Four(w, 28, 0x00000000, 0x00000d80, 0x00003800, 0x00000480)
    requires Four(w, 32, 0x00000000, 0x00007000, 0x00000e00, 0x00003600)
    requires Four(w, 36, 0x0000e000, 0x00000e00, 0x00000000, 0x0001ce00)
    ensures Rounds(h, w, 40) == Hash(0x03bb6310, 0x84e2a5f2, 0x21f56e03, 0xb3bd6b84, 0x1a5b6901)
  {
    hide Rounds;
    FourRounds(h, w, 20, Hash(0xd8992153, 0xc2eb709f, 0x2946d62f, 0x9541f6db, 0x365dc8d8),
      0x37482f5f, 0xee8700bd, 0x9ad594b9, 0x8fbaa5b9);
    FourRounds(h, w, 24, Hash(0x8fbaa5b9, 0x9ad594b9, 0x7ba1c02f, 0xcdd20bd7, 0xf6264854),
      0x88fb5867, 0xeec50521, 0x50bce434, 0x5c416daf);
    FourRounds(h, w, 28, Hash(0x5c416daf, 0x50bce434, 0x7bb14148, 0xe23ed619, 0x63eea96e),
      0x2429be5f, 0x0a2fb108, 0x17986223, 0x8a4af384);
    FourRounds(h, w, 32, Hash(0x8a4af384, 0x17986223, 0x028bec42, 0xc90a6f97, 0xd7105b6b),
      0x6b629993, 0xf15f04f3, 0x295cc25b, 0x696da404);
    FourRounds(h, w, 36, Hash(0x696da404, 0x295cc25b, 0xfc57c13c, 0xdad8a664, 0x2292bce1),
      0xcef5ae12, 0x87d5b80c, 0x84e2a5f2, 0x03bb6310);
  }

  lemma SecondRounds40(h: Hash, w: seq<Word>)
    requires |w| == 80 && Rounds(h, w, 40) == Hash(0x03bb6310, 0x84e2a5f2, 0x21f56e03, 0xb3bd6b84, 0x1a5b6901)
    requires Four(w, 40, 0x00000000, 0x0000d800, 0x00038000, 0x00004f00)
    requires Four(w, 44, 0x00000000, 0x00070e00, 0x0000ee00, 0x00037500)
    requires Four(w, 48, 0x000e0000, 0x0000e000, 0x00003600, 0x001cee00)
    requires Four(w, 52, 0x00000000, 0x000df000, 0x00380000, 0x0004c600)
    requires Four(w, 56, 0x0000e000, 0x0070ee00, 0x000ee000, 0x00369e00)
    ensures Rounds(h, w, 60) == Hash(0xa65818f7, 0x5b086c42, 0xb9e15956, 0xea1256a6, 0xdb69cb9f)
  {
    hide Rounds;
    FourRounds(h, w, 40, Hash(0x03bb6310, 0x84e2a5f2, 0x21f56e03, 0xb3bd6b84, 0x1a5b6901),
      0xc2d8f75f, 0xbfb25768, 0x28589152, 0xec1d3d61);
    FourRounds(h, w, 44, Hash(0xec1d3d61, 0x28589152, 0x2fec95da, 0xf0b63dd7, 0x00eed8c4),
      0x3caed7af, 0xc3d033ea, 0x7316056a, 0x46f93b68);
    FourRounds(h, w, 48, Hash(0x46f93b68, 0x7316056a, 0xb0f40cfa, 0xcf2bb5eb, 0x7b074f58),
      0xdc8e7f26, 0x850d411c, 0x7e4672c0, 0x89fbd41d);
    FourRounds(h, w, 52, Hash(0x89fbd41d, 0x7e4672c0, 0x21435047, 0xb7239fc9, 0x11be4eda),
      0x1797e228, 0x431d65bc, 0x2bdbb8cb, 0x6da72e7f);
    FourRounds(h, w, 56, Hash(0x6da72e7f, 0x2bdbb8cb, 0x10c7596f, 0x05e5f88a, 0x627ef507),
      0xa8495a9b, 0xe785655a, 0x5b086c42, 0xa65818f7);
  }

  lemma SecondRounds60(h: Hash, w: seq<Word>)
    requires |w| == 80 && Rounds(h, w, 60) == Hash(0xa65818f7, 0x5b086c42, 0xb9e15956, 0xea1256a6, 0xdb69cb9f)
    requires Four(w, 60, 0x00e00000, 0x000ed600, 0x0000e000, 0x01cea600)
    requires Four(w, 64, 0x00000000, 0x00d80000, 0x0380e000, 0x004f0000)
    requires Four(w, 68, 0x00000000, 0x070e0000, 0x00ee0000, 0x03751c00)
    requires Four(w, 72, 0x0e000000, 0x00e0e000, 0x00363800, 0x1cee9000)
    requires Four(w, 76, 0x00000000, 0x0df09000, 0x3800e000, 0x04c77400)
    ensures Rounds(h, w, 80) == Hash(0x906fd62c, 0x58c0aac0, 0xb6a55520, 0x74e9b89d, 0x9af00b7f)
  {
    hide Rounds;
    FourRounds(h, w, 60, Hash(0xa65818f7, 0x5b086c42, 0xb9e15956, 0xea1256a6, 0xdb69cb9f),
      0x7aab101b, 0x93614c9c, 0xf66d9bf4, 0xd504902b);
    FourRounds(h, w, 64, Hash(0xd504902b, 0xf66d9bf4, 0x24d85327, 0xdeaac406, 0xe996063d),
      0x60a9da62, 0x8b687819, 0x083e90c3, 0xf6226bbf);
    FourRounds(h, w, 68, Hash(0xf6226bbf, 0x083e90c3, 0x62da1e06, 0x982a7698, 0xf541240a),
      0x76c0563b, 0x989dd165, 0x8b2c7573, 0xae1b8e7b);
    FourRounds(h, w, 72, Hash(0xae1b8e7b, 0x8b2c7573, 0x66277459, 0xddb0158e, 0xfd889aef),
      0xca1840de, 0x16f3babb, 0xd28d83ad, 0x6bc02dfe);
    FourRounds(h, w, 76, Hash(0x6bc02dfe, 0xd28d83ad, 0xc5bceeae, 0xb2861037, 0xeb86e39e),
      0xd3a6e275, 0xda955482, 0x58c0aac0, 0x906fd62c);
  }

  lemma SecondBlock(h: Hash, block: Bytes)
    requires |block| == 64 && h == Hash(0xf4286818, 0xc37b27ae, 0x0408f581, 0x84677148, 0x4a566572)
    requires Reads(block, 0, 0x00000000, 0x00000000, 0x00000000, 0x00000000)
    requires Reads(block, 4, 0x00000000, 0x00000000, 0x00000000, 0x00000000)
    requires Reads(block, 8, 0x00000000, 0x00000000, 0x00000000, 0x00000000)
    requires Reads(block, 12, 0x00000000, 0x00000000, 0x00000000, 0x000001c0)
    ensures Compress(h, block) == Hash(0x84983e44, 0x1c3bd26e, 0xbaae4aa1, 0xf95129e5, 0xe54670f1)
  {
    hide Schedule, Rounds, WordAt, Four, Reads;
    var w := Schedule(block, 80);
    ReadFour(block, w, 0, 0x00000000, 0x00000000, 0x00000000, 0x00000000);
    ReadFour(block, w, 4, 0x00000000, 0x00000000, 0x00000000, 0x00000000);
    ReadFour(block, w, 8, 0x00000000, 0x00000000, 0x00000000, 0x00000000);
    ReadFour(block, w, 12, 0x00000000, 0x00000000, 0x00000000, 0x000001c0);
    SecondWords(block, w);
    NoRounds(h, w);
    SecondRounds0(h, w);
    SecondRounds20(h, w);
    SecondRounds40(h, w);
    SecondRounds60(h, w);
  }

  // The message of the example.
  function Letters(): (m: Bytes)
    ensures |m| == 56
  {
    [0x61, 0x62, 0x63, 0x64, 0x62, 0x63, 0x64, 0x65, 0x63, 0x64, 0x65, 0x66, 0x64, 0x65] +
    [0x66, 0x67, 0x65, 0x66, 0x67, 0x68, 0x66, 0x67, 0x68, 0x69, 0x67, 0x68, 0x69, 0x6a] +
    [0x68, 0x69, 0x6a, 0x6b, 0x69, 0x6a, 0x6b, 0x6c, 0x6a, 0x6b, 0x6c, 0x6d, 0x6b, 0x6c] +
    [0x6d, 0x6e, 0x6c, 0x6d, 0x6e, 0x6f, 0x6d, 0x6e, 0x6f, 0x70, 0x6e, 0x6f, 0x70, 0x71]
  }

  lemma LettersFrom0(m: Bytes)
    requires m == Letters()
    ensures m[0] == 0x61 && m[1] == 0x62 && m[2] == 0x63 && m[3] == 0x64
    ensures m[4] == 0x62 && m[5] == 0x63 && m[6] == 0x64 && m[7] == 0x65
    ensures m[8] == 0x63 && m[9] == 0x64 && m[10] == 0x65 && m[11] == 0x66
    ensures m[12] == 0x64 && m[13] == 0x65 && m[14] == 0x66 && m[15] == 0x67
  {
  }

  lemma LettersFrom16(m: Bytes)
    requires m == Letters()
    ensures m[16] == 0x65 && m[17] == 0x66 && m[18] == 0x67 && m[19] == 0x68
    ensures m[20] == 0x66 && m[21] == 0x67 && m[22] == 0x68 && m[23] == 0x69
    ensures m[24] == 0x67 && m[25] == 0x68 && m[26] == 0x69 && m[27] == 0x6a
  {
  }

  lemma LettersFrom28(m: Bytes)
    requires m == Letters()
    ensures m[28] == 0x68 && m[29] == 0x69 && m[30] == 0x6a && m[31] == 0x6b
    ensures m[32] == 0x69 && m[33] == 0x6a && m[34] == 0x6b && m[35] == 0x6c
    ensures m[36] == 0x6a && m[37] == 0x6b && m[38] == 0x6c && m[39] == 0x6d
    ensures m[40] == 0x6b && m[41] == 0x6c && m[42] == 0x6d && m[43] == 0x6e
    ensures m[44] == 0x6c && m[45] == 0x6d && m[46] == 0x6e && m[47] == 0x6f
    ensures m[48] == 0x6d && m[49] == 0x6e && m[50] == 0x6f && m[51] == 0x70
    ensures m[52] == 0x6e && m[53] == 0x6f && m[54] == 0x70 && m[55] == 0x71
  {
  }

  // The message with its one bit and its length.
  lemma TwoPadded(m: Bytes)
    requires m == Letters()
    ensures |Pad(m)| == 128 && Pad(m)[..64] == m + [0x80, 0, 0, 0, 0, 0, 0, 0]
    ensures Pad(m)[126] == 0x01 && Pad(m)[127] == 0xc0 && forall k :: 64 <= k < 126 ==> Pad(m)[k] == 0
  {
    var p := Pad(m);
    assert p[120..] == [0, 0, 0, 0, 0, 0, 0x01, 0xc0];
    assert p[126] == p[120..][6] && p[127] == p[120..][7];
    assert forall k :: 57 <= k < 120 ==> p[k] == 0;
    assert forall k :: 120 <= k < 126 ==> p[k] == p[120..][k - 120];
  }

  lemma FirstRead0(m: Bytes, block: Bytes)
    requires m == Letters() && block == m + [0x80, 0, 0, 0, 0, 0, 0, 0]
    ensures |block| == 64
    ensures Reads(block, 0, 0x61626364, 0x62636465, 0x63646566, 0x64656667)
    ensures Reads(block, 4, 0x65666768, 0x66676869, 0x6768696a, 0x68696a6b)
  {
    assert forall k :: 0 <= k < 56 ==> block[k] == m[k];
    LettersFrom0(m);
    LettersFrom16(m);
    LettersFrom28(m);
    hide Letters, WordAt;
    ReadWord(block, 0, 0x61, 0x62, 0x63, 0x64, 0x61626364);
    ReadWord(block, 1, 0x62, 0x63, 0x64, 0x65, 0x62636465);
    ReadWord(block, 2, 0x63, 0x64, 0x65, 0x66, 0x63646566);
    ReadWord(block, 3, 0x64, 0x65, 0x66, 0x67, 0x64656667);
    ReadWord(block, 4, 0x65, 0x66, 0x67, 0x68, 0x65666768);
    ReadWord(block, 5, 0x66, 0x67, 0x68, 0x69, 0x66676869);
    ReadWord(block, 6, 0x67, 0x68, 0x69, 0x6a, 0x6768696a);
    ReadWord(block, 7, 0x68, 0x69, 0x6a, 0x6b, 0x68696a6b);
  }

  lemma FirstRead8(m: Bytes, block: Bytes)
    requires m == Letters() && block == m + [0x80, 0, 0, 0, 0, 0, 0, 0]
    ensures |block| == 64
    ensures Reads(block, 8, 0x696a6b6c, 0x6a6b6c6d, 0x6b6c6d6e, 0x6c6d6e6f)
    ensures Reads(block, 12, 0x6d6e6f70, 0x6e6f7071, 0x80000000, 0x00000000)
  {
    assert block[56] == 0x80 && forall k :: 57 <= k < 64 ==> block[k] == 0;
    assert forall k :: 0 <= k < 56 ==> block[k] == m[k];
    LettersFrom28(m);
    hide Letters, WordAt;
    ReadWord(block, 8, 0x69, 0x6a, 0x6b, 0x6c, 0x696a6b6c);
    ReadWord(block, 9, 0x6a, 0x6b, 0x6c, 0x6d, 0x6a6b6c6d);
    ReadWord(block, 10, 0x6b, 0x6c, 0x6d, 0x6e, 0x6b6c6d6e);
    ReadWord(block, 11, 0x6c, 0x6d, 0x6e, 0x6f, 0x6c6d6e6f);
    ReadWord(block, 12, 0x6d, 0x6e, 0x6f, 0x70, 0x6d6e6f70);
    ReadWord(block, 13, 0x6e, 0x6f, 0x70, 0x71, 0x6e6f7071);
    ReadWord(block, 14, 0x80, 0x00, 0x00, 0x00, 0x80000000);
    ReadWord(block, 15, 0x00, 0x00, 0x00, 0x00, 0x00000000);
  }

  lemma SecondRead(block: Bytes)
    requires |block| == 64 && block[62] == 0x01 && block[63] == 0xc0 && forall k :: 0 <= k < 62 ==> block[k] == 0
    ensures Reads(block, 0, 0x00000000, 0x00000000, 0x00000000, 0x00000000)
    ensures Reads(block, 4, 0x00000000, 0x00000000, 0x00000000, 0x00000000)
    ensures Reads(block, 8, 0x00000000, 0x00000000, 0x00000000, 0x00000000)
    ensures Reads(block, 12, 0x00000000, 0x00000000, 0x00000000, 0x000001c0)
  {
    assert Join(0, 0, 0, 0) == 0 && Join(0, 0, 1, 0xc0) == 0x1c0;
  }

  lemma FoldOfTwoBlocks()
    ensures Fold(Pad(Letters())) == Hash(0x84983e44, 0x1c3bd26e, 0xbaae4aa1, 0xf95129e5, 0xe54670f1)
  {
    var m := Letters();
    TwoPadded(m);
    var first, second := Pad(m)[..64], Pad(m)[64..];
    assert second[62] == 0x01 && second[63] == 0xc0 && forall k :: 0 <= k < 62 ==> second[k] == 0;
    hide *;
    FirstRead0(m, first);
    FirstRead8(m, first);
    FirstBlock(INIT, first);
    SecondRead(second);
    SecondBlock(Compress(INIT, first), second);
    TwoBlocks(Pad(m));
  }

  lemma TwoBytes0(h: Hash)
    requires h == Hash(0x84983e44, 0x1c3bd26e, 0xbaae4aa1, 0xf95129e5, 0xe54670f1)
    ensures ByteOf(h, 0) == 0x84 && ByteOf(h, 1) == 0x98 && ByteOf(h, 2) == 0x3e && ByteOf(h, 3) == 0x44
  {
  }

  lemma TwoBytes4(h: Hash)
    requires h == Hash(0x84983e44, 0x1c3bd26e, 0xbaae4aa1, 0xf95129e5, 0xe54670f1)
    ensures ByteOf(h, 4) == 0x1c && ByteOf(h, 5) == 0x3b && ByteOf(h, 6) == 0xd2 && ByteOf(h, 7) == 0x6e
  {
  }

  lemma TwoBytes8(h: Hash)
    requires h == Hash(0x84983e44, 0x1c3bd26e, 0xbaae4aa1, 0xf95129e5, 0xe54670f1)
    ensures ByteOf(h, 8) == 0xba && ByteOf(h, 9) == 0xae && ByteOf(h, 10) == 0x4a && ByteOf(h, 11) == 0xa1
  {
  }

  lemma TwoBytes12(h: Hash)
    requires h == Hash(0x84983e44, 0x1c3bd26e, 0xbaae4aa1, 0xf95129e5, 0xe54670f1)
    ensures ByteOf(h, 12) == 0xf9 && ByteOf(h, 13) == 0x51 && ByteOf(h, 14) == 0x29 && ByteOf(h, 15) == 0xe5
  {
  }

  lemma TwoBytes16(h: Hash)
    requires h == Hash(0x84983e44, 0x1c3bd26e, 0xbaae4aa1, 0xf95129e5, 0xe54670f1)
    ensures ByteOf(h, 16) == 0xe5 && ByteOf(h, 17) == 0x46 && ByteOf(h, 18) == 0x70 && ByteOf(h, 19) == 0xf1
  {
  }

  lemma DigestOfTwoBlocks()
    ensures Digest(Letters()) == [
      0x84, 0x98, 0x3e, 0x44, 0x1c, 0x3b, 0xd2, 0x6e, 0xba, 0xae,
      0x4a, 0xa1, 0xf9, 0x51, 0x29, 0xe5, 0xe5, 0x46, 0x70, 0xf1]
  {
    hide *;
    var h := Fold(Pad(Letters()));
    FoldOfTwoBlocks();
    TwoBytes0(h);
    TwoBytes4(h);
    TwoBytes8(h);
    TwoBytes12(h);
    TwoBytes16(h);
    DigestIs(Letters(), h, [
      0x84, 0x98, 0x3e, 0x44, 0x1c, 0x3b, 0xd2, 0x6e, 0xba, 0xae,
      0x4a, 0xa1, 0xf9, 0x51, 0x29, 0xe5, 0xe5, 0x46, 0x70, 0xf1]);
  }

}
