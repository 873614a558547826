// SHA-1: the digest of FIPS PUB 180-1 as a function of the whole message, and
// the context that computes it from any sequence of writes.
module Sha1 {
  import opened StreamInt

  type Word = bv32

  // ----- the standard -----

  datatype Hash = Hash(a: Word, b: Word, c: Word, d: Word, e: Word)

  const INIT := Hash(0x67452301, 0xEFCDAB89, 0x98BADCFE, 0x10325476, 0xC3D2E1F0)

  function Rotl(x: Word, n: nat): Word
    requires n <= 32
  {
    (x << n) | (x >> (32 - n))
  }

  // Section 5: the functions and constants of the rounds.
  function Choice(b: Word, c: Word, d: Word): Word {
    (b & c) | (!b & d)
  }

  function Parity(b: Word, c: Word, d: Word): Word {
    b ^ c ^ d
  }

  function Majority(b: Word, c: Word, d: Word): Word {
    (b & c) | (b & d) | (c & d)
  }

  function F(t: nat, b: Word, c: Word, d: Word): Word {
    if t < 20 then Choice(b, c, d)
    else if t < 40 then Parity(b, c, d)
    else if t < 60 then Majority(b, c, d)
    else Parity(b, c, d)
  }

  function K(t: nat): Word {
    if t < 20 then 0x5A827999 else if t < 40 then 0x6ED9EBA1 else if t < 60 then 0x8F1BBCDC else 0xCA62C1D6
  }

  function WordAt(block: Bytes, t: nat): Word
    requires |block| == 64 && t < 16
  {
    Join(block[4 * t], block[4 * t + 1], block[4 * t + 2], block[4 * t + 3])
  }

  function Join(a: Byte, b: Byte, c: Byte, d: Byte): Word {
    (a as Word << 24) | (b as Word << 16) | (c as Word << 8) | d as Word
  }

  // Section 7: the first `n` words of the schedule of a block.
  function Schedule(block: Bytes, n: nat): (w: seq<Word>)
    requires |block| == 64
    ensures |w| == n
  {
    if n == 0 then []
    else
      var w, t := Schedule(block, n - 1), n - 1;
      w + [if t < 16 then WordAt(block, t) else Mixed(w[t - 3], w[t - 8], w[t - 14], w[t - 16])]
  }

  function Mixed(a: Word, b: Word, c: Word, d: Word): Word {
    Rotl(a ^ b ^ c ^ d, 1)
  }

  function Plus(x: Word, y: Word): Word {
    x + y
  }

  function Temp(a: Word, f: Word, e: Word, w: Word, k: Word): Word {
    Rotl(a, 5) + f + e + w + k
  }

  function Round(h: Hash, t: nat, w: Word): Hash {
    Hash(Temp(h.a, F(t, h.b, h.c, h.d), h.e, w, K(t)), h.a, Rotl(h.b, 30), h.c, h.d)
  }

  function Rounds(h: Hash, w: seq<Word>, t: nat): Hash
    requires t <= |w|
  {
    if t == 0 then h else Round(Rounds(h, w, t - 1), t - 1, w[t - 1])
  }

  function Compress(h: Hash, block: Bytes): Hash
    requires |block| == 64
  {
    var r := Rounds(h, Schedule(block, 80), 80);
    Hash(Plus(h.a, r.a), Plus(h.b, r.b), Plus(h.c, r.c), Plus(h.d, r.d), Plus(h.e, r.e))
  }

  // The hash of a string of whole blocks.
  function Fold(s: Bytes): Hash
    requires |s| % 64 == 0
  {
    if s == [] then INIT
    else
      assert |s| >= 64;
      Compress(Fold(s[..|s| - 64]), s[|s| - 64..])
  }

  function Zeros(n: nat): (r: Bytes)
    ensures |r| == n && forall i :: 0 <= i < n ==> r[i] == 0
  {
    seq(n, _ => 0)
  }

  // The 64-bit big-endian representation of `v`.
  function Be64(v: nat): (r: Bytes)
    ensures |r| == 8
  {
    Be32(v / 0x1_0000_0000) + Be32(v % 0x1_0000_0000)
  }

  function Be32(v: nat): (r: Bytes)
    ensures |r| == 4
  {
    [ToByte(v / 0x100_0000), ToByte(v / 0x1_0000), ToByte(v / 0x100), ToByte(v)]
  }

  function ToByte(v: nat): Byte {
    v % 256
  }

  // The zeros between the one bit and the length.
  function ZeroCount(n: nat): (z: nat)
    ensures (n + 1 + z + 8) % 64 == 0 && z < 64
  {
    if n % 64 <= 55 then 55 - n % 64 else 119 - n % 64
  }

  // Section 4: a one bit, as few zeros as complete a block, the length in bits.
  function Pad(s: Bytes): (r: Bytes)
    ensures |r| == |s| + 1 + ZeroCount(|s|) + 8 && |r| % 64 == 0
  {
    s + [0x80] + Zeros(ZeroCount(|s|)) + Be64(8 * |s|)
  }

  function ByteOf(h: Hash, i: nat): Byte
    requires i < 20
  {
    var x := if i < 4 then h.a else if i < 8 then h.b else if i < 12 then h.c else if i < 16 then h.d else h.e;
    ((x >> (8 * (3 - i % 4))) & 0xff) as bv8 as Byte
  }

  function Digest(s: Bytes): Hash20
  {
    var h := Fold(Pad(s));
    seq(20, i requires 0 <= i < 20 => ByteOf(h, i))
  }

  lemma FoldNothing()
    ensures Fold([]) == INIT
  {
  }

  // Blocks can be hashed as they come.
  lemma {:induction false} FoldBlock(s: Bytes, block: Bytes)
    requires Blocks(|s|) && |block| == 64
    ensures Fold(s + block) == Compress(Fold(s), block)
  {
    assert (s + block)[..|s|] == s && (s + block)[|s|..] == block;
  }

  // `n` bytes are whole blocks.
  predicate Blocks(n: int) {
    n % 64 == 0
  }

  lemma OneBlockMore(n: int)
    requires Blocks(n)
    ensures Blocks(n + 64)
  {
  }

  lemma TailOf(m: Bytes, x: Byte, n: nat)
    requires n <= |m|
    ensures (m + [x])[|m + [x]| - (n + 1)..] == m[|m| - n..] + [x]
    ensures (m + [x])[..|m + [x]| - (n + 1)] == m[..|m| - n]
    ensures m[..|m| - n] + (m[|m| - n..] + [x]) == m + [x]
    ensures (m + [x])[..|m + [x]| - 0] == m + [x] && (m + [x])[|m + [x]| - 0..] == []
  {
  }

  // ----- the context -----

  const SUCCESS := 0
  const INPUT_TOO_LONG := 1  // the value that the code uses
  const STATE_ERROR := 3

  class Context {
    const hash: array<Word>
    const block: array<Byte>
    var low: nat   // 32-bit
    var high: nat  // 32-bit
    var index: nat
    var computed: bool
    var corrupted: int
    ghost var message: Bytes

    ghost predicate Shaped()
      reads this`low, this`high
    {
      hash.Length == 5 && block.Length == 64 && low < 0x1_0000_0000 && high < 0x1_0000_0000
    }

    function HashOf(): Hash
      reads hash
      requires hash.Length == 5
    {
      Hash(hash[0], hash[1], hash[2], hash[3], hash[4])
    }

    // The last bytes of `m` are in the block, the others in the hash.
    ghost predicate Buffered(m: Bytes)
      reads this`index, hash, block
    {
      && hash.Length == 5 && block.Length == 64 && index < 64 && index <= |m| && Blocks(|m| - index)
      && block[..index] == m[|m| - index..] && HashOf() == Fold(m[..|m| - index])
    }

    // The state while input is taken.
    ghost predicate Valid()
      reads this, hash, block
    {
      && !computed && corrupted == 0 && Shaped() && Buffered(message)
      && high * 0x1_0000_0000 + low == 8 * |message|
    }

    constructor ()
      ensures Valid() && message == [] && fresh(hash) && fresh(block)
    {
      hide Fold, Compress, Buffered;
      hash := new Word[5];
      block := new Byte[64](_ => 0);
      low, high, index, computed, corrupted := 0, 0, 0, false, 0;
      message := [];
      new;
      ResetHash();
      NothingBuffered();
    }

    lemma NothingBuffered()
      requires hash.Length == 5 && block.Length == 64 && index == 0 && HashOf() == INIT
      ensures Buffered([])
    {
      hide Fold;
      FoldNothing();
    }

    method ResetHash()
      requires hash.Length == 5
      modifies hash
      ensures HashOf() == INIT
    {
      hash[0], hash[1], hash[2], hash[3], hash[4] := INIT.a, INIT.b, INIT.c, INIT.d, INIT.e;
    }

    method ReadWord(t: nat) returns (x: Word)
      requires block.Length == 64 && t < 16
      ensures x == WordAt(block[..], t)
    {
      hide Join;
      x := Join(block[t * 4], block[t * 4 + 1], block[t * 4 + 2], block[t * 4 + 3]);
      assert block[t * 4] == block[..][4 * t] && block[t * 4 + 1] == block[..][4 * t + 1];
      assert block[t * 4 + 2] == block[..][4 * t + 2] && block[t * 4 + 3] == block[..][4 * t + 3];
    }

    method MixWord(w: array<Word>, t: nat, ghost b: Bytes)
      requires w.Length == 80 && 16 <= t < 80 && |b| == 64 && w[..t] == Schedule(b, t)
      modifies w
      ensures w[..t + 1] == Schedule(b, t + 1)
    {
      hide Mixed, WordAt;
      ghost var s := w[..t];
      w[t] := Mixed(w[t - 3], w[t - 8], w[t - 14], w[t - 16]);
      assert w[..t + 1] == s + [w[t]];
    }

    // The words of the block and the 64 that are mixed from them.
    method Expand() returns (w: array<Word>)
      requires block.Length == 64
      ensures fresh(w) && w.Length == 80 && w[..] == Schedule(block[..], 80)
    {
      hide Mixed;
      ghost var b := block[..];
      w := new Word[80];
      for t := 0 to 16
        invariant w[..t] == Schedule(b, t)
      {
        w[t] := ReadWord(t);
        assert w[..t + 1] == w[..t] + [w[t]];
      }
      for t := 16 to 80
        invariant w[..t] == Schedule(b, t)
      {
        MixWord(w, t, b);
      }
      assert w[..] == w[..80];
    }

    // The 80 rounds over a schedule.
    method RunRounds(w: array<Word>) returns (a: Word, b: Word, c: Word, d: Word, e: Word)
      requires hash.Length == 5 && w.Length == 80
      ensures Hash(a, b, c, d, e) == Rounds(HashOf(), w[..], 80)
    {
      hide Rotl, Temp, Choice, Parity, Majority;
      ghost var s, h := w[..], HashOf();
      a, b, c, d, e := hash[0], hash[1], hash[2], hash[3], hash[4];
      for t := 0 to 20
        invariant Hash(a, b, c, d, e) == Rounds(h, s, t)
      {
        var temp := Temp(a, Choice(b, c, d), e, w[t], 0x5A827999);
        a, b, c, d, e := temp, a, Rotl(b, 30), c, d;
      }
      for t := 20 to 40
        invariant Hash(a, b, c, d, e) == Rounds(h, s, t)
      {
        var temp := Temp(a, Parity(b, c, d), e, w[t], 0x6ED9EBA1);
        a, b, c, d, e := temp, a, Rotl(b, 30), c, d;
      }
      for t := 40 to 60
        invariant Hash(a, b, c, d, e) == Rounds(h, s, t)
      {
        var temp := Temp(a, Majority(b, c, d), e, w[t], 0x8F1BBCDC);
        a, b, c, d, e := temp, a, Rotl(b, 30), c, d;
      }
      for t := 60 to 80
        invariant Hash(a, b, c, d, e) == Rounds(h, s, t)
      {
        var temp := Temp(a, Parity(b, c, d), e, w[t], 0xCA62C1D6);
        a, b, c, d, e := temp, a, Rotl(b, 30), c, d;
      }
    }

    // SHA1ProcessMessageBlock
    method ProcessBlock()
      requires Shaped()
      modifies hash, this`index
      ensures Shaped() && index == 0 && HashOf() == Compress(old(HashOf()), block[..])
    {
      hide Plus, Rounds, Schedule;
      var w := Expand();
      var a, b, c, d, e := RunRounds(w);
      hash[0] := Plus(hash[0], a);
      hash[1] := Plus(hash[1], b);
      hash[2] := Plus(hash[2], c);
      hash[3] := Plus(hash[3], d);
      hash[4] := Plus(hash[4], e);
      index := 0;
    }

    // Adds eight bits to the length; false on overflow of the 64 bits.
    method CountByte() returns (ok: bool)
      requires low < 0x1_0000_0000 && high < 0x1_0000_0000 && low % 8 == 0
      modifies this`low, this`high
      ensures low < 0x1_0000_0000 && high < 0x1_0000_0000
      ensures var v := old(high) * 0x1_0000_0000 + old(low) + 8;
        (ok <==> v < 0x1_0000_0000_0000_0000) && (ok ==> high * 0x1_0000_0000 + low == v)
    {
      ok := true;
      low := (low + 8) % 0x1_0000_0000;
      if low == 0 {
        high := (high + 1) % 0x1_0000_0000;
        if high == 0 {
          ok := false;
        }
      }
    }

    // Buffers a byte and hashes a full block.
    method PutByte(x: Byte, ghost m: Bytes)
      requires Shaped() && Buffered(m)
      modifies this`index, hash, block
      ensures Buffered(m + [x])
    {
      hide Compress, Fold, Blocks;
      ghost var start, tail := m[..|m| - index], m[|m| - index..];
      TailOf(m, x, index);
      OneBlockMore(|start|);
      block[index] := x;
      index := index + 1;
      assert block[..index] == tail + [x];
      if index == 64 {
        assert block[..] == tail + [x];
        HashBlock(start);
      }
    }

    lemma LowBits(high: nat, low: nat, n: nat)
      requires high * 0x1_0000_0000 + low == 8 * n
      ensures low % 8 == 0
    {
    }

    // The body of the loop of SHA1Input. The message is too long when its length
    // in bits overflows 64 bits.
    method AddByte(x: Byte)
      requires Valid()
      modifies this, hash, block
      ensures message == old(message) + [x]
      ensures 8 * |message| < 0x1_0000_0000_0000_0000 ==> Valid()
      ensures 8 * |message| >= 0x1_0000_0000_0000_0000 ==> Shaped() && !computed && corrupted == 1
    {
      hide Compress, Fold, Buffered;
      LowBits(high, low, |message|);
      var ok := CountByte();
      if !ok {
        corrupted := INPUT_TOO_LONG;
      }
      PutByte(x, message);
      message := message + [x];
    }

    // SHA1Input
    method Input(s: Bytes) returns (code: int)
      requires Shaped() && (Valid() || computed || corrupted != 0)
      modifies this, hash, block
      ensures Shaped() && (s == [] ==> code == 0 && unchanged(this) && unchanged(hash) && unchanged(block))
      ensures !old(computed) ==> !computed
      ensures old(Valid()) ==>
        if 8 * (|old(message)| + |s|) < 0x1_0000_0000_0000_0000
        then Valid() && message == old(message) + s && code == 0
        else corrupted == 1 && code == 0
      ensures old(computed) && s != [] ==> computed && corrupted == 3 == code
      ensures !old(computed) && old(corrupted) != 0 && s != [] ==> code == corrupted == old(corrupted) && !computed
    {
      hide Buffered;
      if s == [] {
        assert old(message) + s == old(message);
        return SUCCESS;
      }
      if computed {
        corrupted := STATE_ERROR;
        return STATE_ERROR;
      }
      if corrupted != 0 {
        return corrupted;
      }
      var i := 0;
      while i < |s| && corrupted == 0
        invariant 0 <= i <= |s| && Shaped() && !computed && message == old(message) + s[..i]
        invariant corrupted == 0 ==> Valid()
        invariant corrupted != 0 ==> corrupted == INPUT_TOO_LONG && 8 * |message| >= 0x1_0000_0000_0000_0000
      {
        AddByte(s[i]);
        assert s[..i + 1] == s[..i] + [s[i]];
        i := i + 1;
      }
      code := SUCCESS;
    }

    method ZeroTo(n: nat)
      requires Shaped() && index <= n <= 64
      modifies this`index, block
      ensures Shaped() && index == n && block[..n] == old(block[..index]) + Zeros(n - old(index))
    {
      ghost var i := index;
      while index < n
        invariant i <= index <= n && block[..index] == old(block[..i]) + Zeros(index - i)
      {
        block[index] := 0;
        index := index + 1;
      }
    }

    method PutWord(p: nat, v: nat)
      requires block.Length == 64 && p + 4 <= 64
      modifies block
      ensures block[..p + 4] == old(block[..p]) + Be32(v)
    {
      hide ToByte;
      block[p] := ToByte(v / 0x100_0000);
      block[p + 1] := ToByte(v / 0x1_0000);
      block[p + 2] := ToByte(v / 0x100);
      block[p + 3] := ToByte(v);
    }

    // The length, as the last 8 bytes of the block.
    method PutLength()
      requires Shaped()
      modifies block
      ensures block[..] == old(block[..56]) + Be64(high * 0x1_0000_0000 + low)
    {
      hide Be32;
      PutWord(56, high);
      PutWord(60, low);
      ghost var v := high * 0x1_0000_0000 + low;
      assert v / 0x1_0000_0000 == high && v % 0x1_0000_0000 == low;
      assert block[..] == block[..64];
    }

    // Hashes the block, with the bytes of `start` before it.
    method HashBlock(ghost start: Bytes)
      requires Shaped() && Blocks(|start|) && HashOf() == Fold(start)
      modifies this`index, hash
      ensures Shaped() && index == 0 && HashOf() == Fold(start + block[..])
    {
      hide Compress, Fold, Blocks;
      FoldBlock(start, block[..]);
      ProcessBlock();
    }

    // Completes the last block of the padded message.
    method LastBlock(ghost start: Bytes)
      requires Shaped() && index <= 56 && Blocks(|start|) && HashOf() == Fold(start)
      modifies this`index, hash, block
      ensures Shaped()
      ensures HashOf() ==
        Fold(start + (old(block[..index]) + Zeros(56 - old(index)) + Be64(high * 0x1_0000_0000 + low)))
    {
      hide Fold, Be64, Blocks;
      ZeroTo(56);
      PutLength();
      HashBlock(start);
    }

    // SHA1PadMessage
    method PadMessage()
      requires Valid()
      modifies this`index, hash, block
      ensures Shaped() && HashOf() == Fold(Pad(message))
    {
      hide Fold, Pad, Be64, Blocks;
      ghost var m, i := message, index;
      ghost var start, tail := m[..|m| - i], m[|m| - i..];
      var full := index > 55;
      block[index] := 0x80;
      index := index + 1;
      assert block[..index] == tail + [0x80];
      PaddedBlocks(m, i);
      if full {
        FullBlock(start);
        OneBlockMore(|start|);
        start := start + (tail + [0x80] + Zeros(63 - i));
      }
      LastBlock(start);
    }

    // The rest of the block is filled with zeros, and hashed.
    method FullBlock(ghost start: Bytes)
      requires Shaped() && index <= 64 && Blocks(|start|) && HashOf() == Fold(start)
      modifies this`index, hash, block
      ensures Shaped() && index == 0 && block[..index] == []
      ensures HashOf() == Fold(start + (old(block[..index]) + Zeros(64 - old(index))))
    {
      hide Fold, Blocks;
      ZeroTo(64);
      assert block[..64] == block[..];
      HashBlock(start);
    }

    // SHA1Result: pads the message the first time, and returns the hash.
    method Result() returns (code: int, digest: Bytes)
      requires Valid() || Done() || (Shaped() && corrupted != 0)
      modifies this, hash, block
      ensures old(corrupted) != 0 ==> code == old(corrupted) && unchanged(this) && unchanged(hash)
      ensures old(corrupted) == 0 ==> Done() && code == 0 && message == old(message) && digest == Digest(message)
    {
      hide Fold, Pad, ByteOf;
      if corrupted != 0 {
        return corrupted, [];
      }
      if !computed {
        PadMessage();
        forall i | 0 <= i < 64 {
          block[i] := 0;
        }
        low, high, computed := 0, 0, true;
      }
      digest := [];
      var h := HashOf();
      for i := 0 to 20
        invariant |digest| == i && forall j :: 0 <= j < i ==> digest[j] == ByteOf(h, j)
      {
        digest := digest + [ByteOf(h, i)];
      }
      code := SUCCESS;
    }

    // The state after the first result.
    ghost predicate Done()
      reads this, hash
    {
      Shaped() && computed && corrupted == 0 && low == 0 && high == 0 && HashOf() == Fold(Pad(message))
    }
  }

  lemma {:induction false} PaddedBlocks(m: Bytes, i: nat)
    requires i < 64 && i <= |m| && Blocks(|m| - i)
    ensures var start, tail, l := m[..|m| - i], m[|m| - i..] + [0x80], Be64(8 * |m|);
      Pad(m) ==
        if i <= 55 then start + (tail + Zeros(55 - i) + l)
        else start + (tail + Zeros(63 - i)) + ([] + Zeros(56) + l)
  {
    hide Be64;
    assert |m| % 64 == i;
    assert m == m[..|m| - i] + m[|m| - i..];
    if i > 55 {
      assert Zeros(63 - i) + Zeros(56) == Zeros(119 - i);
    }
  }

  // Hashing in pieces: whatever the pieces, the digest is that of the whole.
  method DigestOfPieces(pieces: seq<Bytes>) returns (code: int, digest: Bytes)
    ensures var s := Concat(pieces);
      if 8 * |s| < 0x1_0000_0000_0000_0000 then code == 0 && digest == Digest(s) else code != 0
  {
    hide Fold, Pad, ByteOf;
    var c := new Context();
    for i := 0 to |pieces|
      invariant fresh(c) && fresh(c.hash) && fresh(c.block) && c.Shaped() && !c.computed
      invariant c.corrupted == 0 ==> c.Valid() && c.message == Concat(pieces[..i])
      invariant c.corrupted != 0 ==> 8 * |Concat(pieces[..i])| >= 0x1_0000_0000_0000_0000
    {
      ghost var before := c.message;
      var ok := c.Input(pieces[i]);
      assert pieces[..i + 1][..i] == pieces[..i];
    }
    assert pieces[..|pieces|] == pieces;
    code, digest := c.Result();
  }

  function Concat(pieces: seq<Bytes>): Bytes {
    if pieces == [] then [] else Concat(pieces[..|pieces| - 1]) + pieces[|pieces| - 1]
  }
}
