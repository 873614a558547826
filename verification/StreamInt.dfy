// Integers in byte streams.
module StreamInt {
  import opened Arithmetic

  type Byte = x: int | 0 <= x < 256
  type Bytes = seq<Byte>

  // A hash.
  type Hash20 = b: Bytes | |b| == 20 witness [0, 0, 0, 0, 0, 0, 0, 0, 0, 0, 0, 0, 0, 0, 0, 0, 0, 0, 0, 0]

  function Pow256(n: nat): (r: nat)
    ensures r >= 1
  {
    if n == 0 then 1 else 256 * Pow256(n - 1)
  }

  // The value of a big-endian string.
  function FromBe(s: Bytes): nat {
    if s == [] then 0 else 256 * FromBe(s[..|s| - 1]) + s[|s| - 1]
  }

  // The value of a little-endian string.
  function FromLe(s: Bytes): nat {
    if s == [] then 0 else s[0] + 256 * FromLe(s[1..])
  }

  // The low `cb` bytes of `v`, in two's complement when it is negative.
  function ToLe(cb: nat, v: int): (r: Bytes)
    ensures |r| == cb
  {
    if cb == 0 then [] else [v % 256] + ToLe(cb - 1, v / 256)
  }

  function ToBe(cb: nat, v: int): (r: Bytes)
    ensures |r| == cb
  {
    if cb == 0 then [] else ToBe(cb - 1, v / 256) + [v % 256]
  }

  lemma ModStep(v: int, n: nat)
    requires n >= 1
    ensures v % (256 * n) == v % 256 + 256 * (v / 256 % n)
  {
    var q, r := v / 256 / n, v / 256 % n;
    assert v / 256 == q * n + r;
    assert v == 256 * (q * n + r) + v % 256;
    var t := v % 256 + 256 * r;
    assert 0 <= t < 256 * n;
    assert v == (256 * n) * q + t;
    ModUnique(v, 256 * n, q, t);
  }

  lemma {:induction false} LeRoundTrip(cb: nat, v: int)
    ensures FromLe(ToLe(cb, v)) == v % Pow256(cb)
    decreases cb
  {
    if cb > 0 {
      LeRoundTrip(cb - 1, v / 256);
      assert ToLe(cb, v)[1..] == ToLe(cb - 1, v / 256);
      ModStep(v, Pow256(cb - 1));
    }
  }

  lemma {:induction false} BeRoundTrip(cb: nat, v: int)
    ensures FromBe(ToBe(cb, v)) == v % Pow256(cb)
    decreases cb
  {
    if cb > 0 {
      BeRoundTrip(cb - 1, v / 256);
      assert ToBe(cb, v)[..cb - 1] == ToBe(cb - 1, v / 256);
      ModStep(v, Pow256(cb - 1));
    }
  }

  const TWO_64 := 0x1_0000_0000_0000_0000

  // A number in a signed 64-bit word.
  function Wrap64(v: int): int {
    var m := v % TWO_64;
    if m >= TWO_64 / 2 then m - TWO_64 else m
  }

  // The number of 64 bits that differs by a multiple of 2^64.
  lemma Wrap64IsSigned(v: int)
    ensures -0x8000_0000_0000_0000 <= Wrap64(v) < 0x8000_0000_0000_0000
    ensures (v - Wrap64(v)) % 0x1_0000_0000_0000_0000 == 0
  {
  }

  lemma Wrap64Shift(v: int, b: Byte)
    ensures Wrap64(256 * Wrap64(v) + b) == Wrap64(256 * v + b)
  {
    var k := (v - Wrap64(v)) / TWO_64;
    assert v == Wrap64(v) + TWO_64 * k;
    var w := 256 * Wrap64(v) + b;
    var q := w / TWO_64 + 256 * k;
    assert 256 * v + b == TWO_64 * q + w % TWO_64;
    ModUnique(256 * v + b, TWO_64, q, w % TWO_64);
  }

  lemma {:induction false} FromBeBound(s: Bytes)
    ensures FromBe(s) < Pow256(|s|)
    decreases |s|
  {
    if s != [] {
      FromBeBound(s[..|s| - 1]);
    }
  }

  lemma {:induction false} FromLeBound(s: Bytes)
    ensures FromLe(s) < Pow256(|s|)
    decreases |s|
  {
    if s != [] {
      FromLeBound(s[1..]);
    }
  }

  // Integers of up to seven bytes are not negative.
  lemma {:induction false} ShortIsPositive(s: Bytes)
    requires |s| < 8
    ensures Wrap64(FromBe(s)) == FromBe(s) && Wrap64(FromLe(s)) == FromLe(s)
  {
    FromBeBound(s);
    FromLeBound(s);
    PowGrows(|s|, 7);
    assert Pow256(7) == 256 * (256 * (256 * (256 * (256 * (256 * (256 * 1))))));
  }

  lemma {:induction false} PowGrows(m: nat, n: nat)
    requires m <= n
    ensures Pow256(m) <= Pow256(n)
  {
    if m < n {
      PowGrows(m, n - 1);
    }
  }

  // read_int: shifts the bytes in, first byte first.
  method ReadInt(cb: nat, r: Bytes) returns (v: int)
    requires cb <= |r|
    ensures v == Wrap64(FromBe(r[..cb]))
  {
    v := 0;
    for i := 0 to cb
      invariant v == Wrap64(FromBe(r[..i]))
    {
      assert r[..i + 1][..i] == r[..i];
      Wrap64Shift(FromBe(r[..i]), r[i]);
      v := Wrap64(256 * v + r[i]);
    }
  }

  // read_int_le: shifts the bytes in, last byte first.
  method ReadIntLe(cb: nat, r: Bytes) returns (v: int)
    requires cb <= |r|
    ensures v == Wrap64(FromLe(r[..cb]))
  {
    v := 0;
    var i := cb;
    while i > 0
      invariant 0 <= i <= cb && v == Wrap64(FromLe(r[i..cb]))
    {
      i := i - 1;
      assert r[i..cb][1..] == r[i + 1..cb];
      Wrap64Shift(FromLe(r[i + 1..cb]), r[i]);
      v := Wrap64(256 * v + r[i]);
    }
    assert r[0..cb] == r[..cb];
  }

  // write_int_le: low byte first; the shift keeps the sign.
  method WriteIntLe(cb: nat, v0: int) returns (w: Bytes)
    ensures w == ToLe(cb, v0)
  {
    w := [];
    var v := v0;
    for i := 0 to cb
      invariant ToLe(cb, v0) == w + ToLe(cb - i, v)
    {
      w := w + [v % 256];
      v := v / 256;
    }
  }

  // write_int: fills the field from its end.
  method WriteInt(cb: nat, v0: int) returns (w: Bytes)
    ensures w == ToBe(cb, v0)
  {
    w := [];
    var v := v0;
    for i := 0 to cb
      invariant ToBe(cb, v0) == ToBe(cb - i, v) + w
    {
      w := [v % 256] + w;
      v := v / 256;
    }
  }
}
