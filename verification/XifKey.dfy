// The code that computes, writes and reads XIF files.
module XifKey {
  import opened StreamInt
  import opened Wrappers
  import Arithmetic
  import X = Xif

  // ----- sizes -----

  // The bytes of a value behind its type, where they count.
  function GetSizeOf(v: X.Value): nat {
    match v
    case Bin32(i) => 4
    case Int32(i) => 4
    case Float(b) => 4
    case Hollow(n) => n
    case _ => |v.data|
  }

  // Every float is counted with four bytes too many.
  method GetSize(k: X.Key) returns (size: nat)
    requires X.KeyOk(k)
    ensures size == |X.Save(k)| + 4 * X.Floats(k)
    decreases k
  {
    size := 8;
    for i := 0 to |k.keys|
      invariant size + |X.SaveKeys(k, i)| + 4 * X.FloatKeys(k, i) == 8 + |X.SaveKeys(k, 0)| + 4 * X.FloatKeys(k, 0)
    {
      var n := GetSize(k.keys[i].value);
      size := size + 4 + n;
    }
    ghost var keys := size;
    for i := 0 to |k.values|
      invariant size + |X.SaveValues(k, i)| + 4 * X.FloatValues(k, i) ==
                keys + |X.SaveValues(k, 0)| + 4 * X.FloatValues(k, 0)
    {
      var v := k.values[i].value;
      assert X.ValueOk(v);
      size := size + 9;
      if !v.Bin32? && !v.Int32? && !v.External? && !v.Hollow? {
        size := size + GetSizeOf(v);
      }
    }
  }

  method GetExternalSize(k: X.Key) returns (size: nat)
    requires X.KeyOk(k)
    ensures size == |X.ExternalSave(k)|
    decreases k
  {
    size := 0;
    for i := 0 to |k.keys|
      invariant size + |X.ExternalKeys(k, i)| == |X.ExternalKeys(k, 0)|
    {
      var n := GetExternalSize(k.keys[i].value);
      size := size + n;
    }
    for i := 0 to |k.values|
      invariant size + |X.ExternalValues(k, i)| == |X.ExternalKeys(k, 0)| + |X.ExternalValues(k, 0)|
    {
      assert X.ValueOk(k.values[i].value);
      if k.values[i].value.External? {
        size := size + GetSizeOf(k.values[i].value);
      }
    }
  }

  // ----- saving -----

  method SaveValue(v: X.Value) returns (w: Bytes)
    requires X.ValueOk(v)
    ensures w == X.SaveValue(v)
  {
    hide X.Put4;
    if v.Bin32? || v.Int32? {
      var n := SaveInt(v.i);
      w := [if v.Bin32? then X.BIN32 else X.INT32] + n;
    } else if v.Float? {
      w := [X.FLOAT] + v.bits;
    } else if v.External? {
      var n := SaveInt(|v.data|);
      w := [X.EXTERNAL_BINARY] + n;
    } else {
      var n := SaveInt(|v.data|);
      w := [if v.Binary? then X.BINARY else X.STRING] + (n + v.data);
    }
  }

  method SaveInt(v: int) returns (w: Bytes)
    ensures w == X.Put4(v)
  {
    w := WriteIntLe(4, v);
  }

  method Save(k: X.Key) returns (w: Bytes)
    requires X.KeyOk(k)
    ensures w == X.Save(k)
    decreases k
  {
    hide X.Put4, X.SaveKeys, X.SaveValues;
    var n := SaveInt(|k.keys|);
    var keys := SaveKeys(k);
    var m := SaveInt(|k.values|);
    var values := SaveValues(k);
    w := n + (keys + (m + values));
  }

  method SaveKeys(k: X.Key) returns (w: Bytes)
    requires X.KeyOk(k)
    ensures w == X.SaveKeys(k, 0)
    decreases k, 0
  {
    hide X.Put4, X.Save;
    w := [];
    var id := 0;
    for i := 0 to |k.keys|
      invariant id == X.PrevKey(k, i) && w + X.SaveKeys(k, i) == X.SaveKeys(k, 0)
    {
      var n := SaveInt(k.keys[i].id - id);
      id := k.keys[i].id;
      var s := Save(k.keys[i].value);
      assert w + (n + (s + X.SaveKeys(k, i + 1))) == (w + n + s) + X.SaveKeys(k, i + 1);
      w := w + n + s;
    }
    assert w + [] == w;
  }

  method SaveValues(k: X.Key) returns (w: Bytes)
    requires X.KeyOk(k)
    ensures w == X.SaveValues(k, 0)
  {
    hide X.Put4, X.SaveValue;
    w := [];
    var id := 0;
    for i := 0 to |k.values|
      invariant id == X.PrevValue(k, i) && w + X.SaveValues(k, i) == X.SaveValues(k, 0)
    {
      var n := SaveInt(k.values[i].id - id);
      id := k.values[i].id;
      var s := SaveValue(k.values[i].value);
      assert w + (n + (s + X.SaveValues(k, i + 1))) == (w + n + s) + X.SaveValues(k, i + 1);
      w := w + n + s;
    }
    assert w + [] == w;
  }

  method ExternalSave(k: X.Key) returns (w: Bytes)
    requires X.KeyOk(k)
    ensures w == X.ExternalSave(k)
    decreases k, 1
  {
    var keys := ExternalKeys(k);
    var values := ExternalValues(k);
    w := keys + values;
  }

  method ExternalKeys(k: X.Key) returns (w: Bytes)
    requires X.KeyOk(k)
    ensures w == X.ExternalKeys(k, 0)
    decreases k, 0
  {
    w := [];
    for i := 0 to |k.keys|
      invariant w + X.ExternalKeys(k, i) == X.ExternalKeys(k, 0)
    {
      var s := ExternalSave(k.keys[i].value);
      Arithmetic.ConcatIsAssociative(w, s, X.ExternalKeys(k, i + 1));
      w := w + s;
    }
    assert w + [] == w;
  }

  method ExternalValues(k: X.Key) returns (w: Bytes)
    ensures w == X.ExternalValues(k, 0)
  {
    w := [];
    for i := 0 to |k.values|
      invariant w + X.ExternalValues(k, i) == X.ExternalValues(k, 0)
    {
      var s := X.ExternalOf(k.values[i].value);
      Arithmetic.ConcatIsAssociative(w, s, X.ExternalValues(k, i + 1));
      if k.values[i].value.External? {
        w := w + k.values[i].value.data;
      } else {
        assert w + [] == w;
      }
    }
    assert w + [] == w;
  }

  // ----- loading -----

  method GetInt(s: Bytes) returns (r: X.Got<int>)
    ensures r == X.Get4(s)
  {
    if |s| < 4 {
      return X.Wild;
    }
    ShortIsPositive(s[..4]);
    var v := ReadIntLe(4, s);
    r := X.Got(X.Wrap32(v), s[4..]);
  }

  method LoadNew(s0: Bytes) returns (r: X.Got<X.Key>)
    ensures r == X.LoadNew(s0)
    decreases |s0|
  {
    hide X.Get4, X.Wrap32, X.Insert, X.LoadValue;
    var n := GetInt(s0);
    if n.Wild? {
      return X.Wild;
    }
    ghost var count0, s1 := n.value, n.rest;
    var count, id, s := n.value, 0, n.rest;
    var keys: seq<X.Entry<X.Key>> := [];
    while count != 0
      invariant |s| < |s0| && X.LoadKeys(s, count, id, keys) == X.LoadKeys(s1, count0, 0, [])
      decreases |s|
    {
      n := GetInt(s);
      if n.Wild? {
        return X.Wild;
      }
      id := X.Wrap32(id + n.value);
      var k := LoadNew(n.rest);
      if k.Wild? {
        return X.Wild;
      }
      keys := X.Insert(keys, X.Entry(id, k.value));
      s := k.rest;
      count := count - 1;
    }
    n := GetInt(s);
    if n.Wild? {
      return X.Wild;
    }
    ghost var count1, s2 := n.value, n.rest;
    count, id, s := n.value, 0, n.rest;
    var values: seq<X.Entry<X.Value>> := [];
    while count != 0
      invariant X.LoadValues(s, count, id, values) == X.LoadValues(s2, count1, 0, [])
      decreases |s|
    {
      n := GetInt(s);
      if n.Wild? {
        return X.Wild;
      }
      id := X.Wrap32(id + n.value);
      var v := X.LoadValue(n.rest);
      if v.Wild? {
        return X.Wild;
      }
      values := X.Insert(values, X.Entry(id, v.value));
      s := v.rest;
      count := count - 1;
    }
    r := X.Got(X.Key(keys, values), s);
  }

  method LoadExternal(k: X.Key, s0: Bytes) returns (r: X.Got<X.Key>)
    ensures r == X.LoadExternal(k, s0)
    decreases k
  {
    hide X.FillValue;
    var s := s0;
    var keys: seq<X.Entry<X.Key>> := [];
    BehindNothing(X.FillKeys(k, 0, s0));
    for i := 0 to |k.keys|
      invariant X.FillKeys(k, 0, s0) == Behind(keys, X.FillKeys(k, i, s))
    {
      var e := LoadExternal(k.keys[i].value, s);
      if e.Wild? {
        return X.Wild;
      }
      BehindStep(keys, X.Entry(k.keys[i].id, e.value), X.FillKeys(k, i + 1, e.rest));
      keys := keys + [X.Entry(k.keys[i].id, e.value)];
      s := e.rest;
    }
    assert keys + [] == keys;
    ghost var s1 := s;
    var values: seq<X.Entry<X.Value>> := [];
    BehindNothing(X.FillValues(k, 0, s1));
    for i := 0 to |k.values|
      invariant X.FillValues(k, 0, s1) == Behind(values, X.FillValues(k, i, s))
    {
      var v := X.FillValue(k.values[i].value, s);
      if v.Wild? {
        return X.Wild;
      }
      BehindStep(values, X.Entry(k.values[i].id, v.value), X.FillValues(k, i + 1, v.rest));
      values := values + [X.Entry(k.values[i].id, v.value)];
      s := v.rest;
    }
    assert values + [] == values;
    r := X.Got(X.Key(keys, values), s);
  }

  // What is read, behind what has been read before.
  ghost function Behind<T>(done: seq<T>, r: X.Got<seq<T>>): X.Got<seq<T>> {
    match r
    case Wild => X.Wild
    case Got(t, s) => X.Got(done + t, s)
  }

  lemma BehindNothing<T>(r: X.Got<seq<T>>)
    ensures Behind([], r) == r
  {
    if r.Got? {
      assert [] + r.value == r.value;
    }
  }

  lemma BehindStep<T>(done: seq<T>, e: T, r: X.Got<seq<T>>)
    ensures Behind(done, Behind([e], r)) == Behind(done + [e], r)
  {
    if r.Got? {
      assert done + ([e] + r.value) == (done + [e]) + r.value;
    }
  }

  // ----- files -----

  // A file, with `junk` in the part of the buffer that is not written to.
  method VData(k: X.Key, fast: bool, compress: Bytes -> Bytes) returns (d: Bytes, junk: Bytes)
    requires X.KeyOk(k)
    ensures d == X.VData(k, fast, junk, compress) && |junk| == 4 * X.Floats(k)
  {
    hide X.Save, X.ExternalSave, X.Floats, X.Header;
    var size := GetSize(k);
    var externalSize := GetExternalSize(k);
    var s := Save(k);
    var x := ExternalSave(k);
    var rest: Bytes :| |rest| == size - |s| by {
      assert |seq(size - |s|, _ => 0 as Byte)| == size - |s|;
    }
    junk := rest;
    if fast {
      var h := WriteHeader(0, size, externalSize);
      d := h + s + x + rest;
      assert d == h + (s + (x + rest));
    } else {
      var z := compress(s + rest);
      var h := WriteHeader(size, |z|, externalSize);
      d := h + z + x;
      assert d == h + (z + x);
    }
  }

  method WriteHeader(sizeUncompressed: int, sizeCompressed: int, sizeExternal: int) returns (h: Bytes)
    ensures h == X.Header(sizeUncompressed, sizeCompressed, sizeExternal)
  {
    var a := WriteIntLe(4, X.FILE_ID);
    var b := WriteIntLe(4, X.VERSION_FAST);
    var c := WriteIntLe(4, sizeUncompressed);
    var d := WriteIntLe(4, sizeCompressed);
    var e := WriteIntLe(4, sizeExternal);
    h := a + b + c + d + e;
  }

  // A tree goes to a file and comes back.
  method SaveAndLoad(k: X.Key, fast: bool, compress: Bytes -> Bytes, uncompress: Bytes -> Option<Bytes>)
    returns (r: X.Loaded)
    requires X.KeyOk(k) && X.Inverse(compress, uncompress)
    requires forall junk: Bytes :: |junk| == 4 * X.Floats(k) ==> X.Fits(k, junk, compress)
    ensures r.Loaded? && (r.error <==> X.Floats(k) > 0) && (X.Floats(k) == 0 ==> r.key == k)
  {
    hide *;
    var d, junk := VData(k, fast, compress);
    X.FileRoundTrip(k, fast, junk, compress, uncompress);
    r := X.LoadKey(d, uncompress);
  }
}
