// XIF files: a tree of keys with numbered values, saved with the differences of
// the numbers, and with large values behind the tree.
module Xif {
  import opened StreamInt
  import opened Wrappers

  const BIN32: Byte := 0
  const BINARY: Byte := 1
  const INT32: Byte := 2
  const STRING: Byte := 3
  const EXTERNAL_BINARY: Byte := 4
  const FLOAT: Byte := 5

  const FILE_ID := 0x1a464958
  const VERSION_OLD := 0
  const VERSION_NEW := 1
  const VERSION_FAST := 2
  const CB_HEADER_OLD := 12
  const CB_HEADER_FAST := 20

  // A float is four bytes here. An external value is hollow until its data has
  // been loaded.
  datatype Value = Bin32(i: int) | Binary(data: Bytes) | Int32(i: int) | String(data: Bytes)
    | External(data: Bytes) | Float(bits: Bytes) | Hollow(size: nat)

  datatype Key = Key(keys: seq<Entry<Key>>, values: seq<Entry<Value>>)

  datatype Entry<T> = Entry(id: int, value: T)

  // ----- 32-bit numbers -----

  predicate IsInt32(v: int) {
    -0x8000_0000 <= v <= 0x7fff_ffff
  }

  function Wrap32(v: int): (r: int)
    ensures IsInt32(r)
  {
    var m := v % 0x1_0000_0000;
    if m >= 0x8000_0000 then m - 0x1_0000_0000 else m
  }

  function Put4(v: int): (r: Bytes)
    ensures |r| == 4
  {
    ToLe(4, v)
  }

  // What is read, and the input behind it; or a read behind the end.
  datatype Got<T> = Wild | Got(value: T, rest: Bytes)

  function Get4(s: Bytes): (r: Got<int>)
    ensures r.Got? <==> |s| >= 4
    ensures r.Got? ==> r.rest == s[4..]
  {
    if |s| < 4 then Wild else Got(Wrap32(FromLe(s[..4])), s[4..])
  }

  lemma {:induction false} Get4OfPut4(v: int, t: Bytes)
    ensures Get4(Put4(v) + t) == Got(Wrap32(v), t)
  {
    LeRoundTrip(4, v);
    assert Pow256(4) == 0x1_0000_0000 by {
      assert Pow256(2) == 65536;
    }
    assert (Put4(v) + t)[..4] == Put4(v) && (Put4(v) + t)[4..] == t;
    WrapOfMod(v);
  }

  lemma WrapOfMod(v: int)
    ensures Wrap32(v % 0x1_0000_0000) == Wrap32(v)
    ensures IsInt32(v) ==> Wrap32(v) == v
  {
  }

  // Differences may wrap around; the sums wrap back.
  lemma Delta(id: int, next: int)
    requires IsInt32(id) && IsInt32(next)
    ensures Wrap32(id + Wrap32(next - id)) == next
  {
  }

  // ----- saving -----

  function SaveValue(v: Value): Bytes {
    match v
    case Bin32(i) => [BIN32] + Put4(i)
    case Int32(i) => [INT32] + Put4(i)
    case Float(b) => [FLOAT] + b
    case Binary(d) => [BINARY] + (Put4(|d|) + d)
    case String(d) => [STRING] + (Put4(|d|) + d)
    case External(d) => [EXTERNAL_BINARY] + Put4(|d|)
    case Hollow(n) => [EXTERNAL_BINARY] + Put4(n)
  }

  // The types of the values, and the length or number behind them in four bytes,
  // the low byte first.
  lemma {:induction false} ValueBytes(v: Value, n: nat)
    requires !v.Hollow? && n < 0x1_0000_0000
    requires match v case Bin32(i) => i == n case Int32(i) => i == n case Float(b) => true case _ => |v.data| == n
    ensures var four: Bytes := [n % 0x100, n / 0x100 % 0x100, n / 0x1_0000 % 0x100, n / 0x100_0000];
      match v
      case Bin32(i) => SaveValue(v) == [0] + four
      case Binary(d) => SaveValue(v) == [1] + (four + d)
      case Int32(i) => SaveValue(v) == [2] + four
      case String(d) => SaveValue(v) == [3] + (four + d)
      case External(d) => SaveValue(v) == [4] + four
      case Float(b) => SaveValue(v) == [5] + b
  {
    FourBytes(n);
  }

  lemma FourBytes(n: nat)
    requires n < 0x1_0000_0000
    ensures Put4(n) == [n % 0x100, n / 0x100 % 0x100, n / 0x1_0000 % 0x100, n / 0x100_0000]
  {
    var a, b, c := n / 0x100, n / 0x1_0000, n / 0x100_0000;
    assert a / 0x100 == b && b / 0x100 == c && c / 0x100 == 0;
    assert ToLe(1, c) == [c % 0x100] + ToLe(0, 0);
    assert ToLe(2, b) == [b % 0x100] + ToLe(1, c);
    assert ToLe(3, a) == [a % 0x100] + ToLe(2, b);
    assert ToLe(4, n) == [n % 0x100] + ToLe(3, a);
  }

  function PrevKey(k: Key, i: nat): int
    requires i <= |k.keys|
  {
    if i == 0 then 0 else k.keys[i - 1].id
  }

  function PrevValue(k: Key, i: nat): int
    requires i <= |k.values|
  {
    if i == 0 then 0 else k.values[i - 1].id
  }

  function Save(k: Key): Bytes
    decreases k
  {
    Put4(|k.keys|) + (SaveKeys(k, 0) + (Put4(|k.values|) + SaveValues(k, 0)))
  }

  function SaveKeys(k: Key, i: nat): Bytes
    requires i <= |k.keys|
    decreases k, |k.keys| - i
  {
    if i == |k.keys| then []
    else Put4(k.keys[i].id - PrevKey(k, i)) + (Save(k.keys[i].value) + SaveKeys(k, i + 1))
  }

  function SaveValues(k: Key, i: nat): Bytes
    requires i <= |k.values|
    decreases |k.values| - i
  {
    if i == |k.values| then []
    else Put4(k.values[i].id - PrevValue(k, i)) + (SaveValue(k.values[i].value) + SaveValues(k, i + 1))
  }

  // The data of the external values, in the order of the tree.
  function ExternalSave(k: Key): Bytes
    decreases k
  {
    ExternalKeys(k, 0) + ExternalValues(k, 0)
  }

  function ExternalKeys(k: Key, i: nat): Bytes
    requires i <= |k.keys|
    decreases k, |k.keys| - i
  {
    if i == |k.keys| then [] else ExternalSave(k.keys[i].value) + ExternalKeys(k, i + 1)
  }

  function ExternalOf(v: Value): Bytes {
    if v.External? then v.data else []
  }

  function ExternalValues(k: Key, i: nat): Bytes
    requires i <= |k.values|
    decreases |k.values| - i
  {
    if i == |k.values| then [] else ExternalOf(k.values[i].value) + ExternalValues(k, i + 1)
  }

  // ----- trees -----

  predicate ValueOk(v: Value) {
    match v
    case Bin32(i) => IsInt32(i)
    case Int32(i) => IsInt32(i)
    case Float(b) => |b| == 4
    case Binary(d) => |d| <= 0x7fff_ffff
    case String(d) => |d| <= 0x7fff_ffff
    case External(d) => |d| <= 0x7fff_ffff
    case Hollow(n) => false
  }

  // Numbers are in order, and every size fits an int.
  predicate KeyOk(k: Key)
    decreases k
  {
    && |k.keys| <= 0x7fff_ffff && |k.values| <= 0x7fff_ffff
    && (forall i, j :: 0 <= i < j < |k.keys| ==> k.keys[i].id < k.keys[j].id)
    && (forall i, j :: 0 <= i < j < |k.values| ==> k.values[i].id < k.values[j].id)
    && (forall i :: 0 <= i < |k.keys| ==> IsInt32(k.keys[i].id) && KeyOk(k.keys[i].value))
    && (forall i :: 0 <= i < |k.values| ==> IsInt32(k.values[i].id) && ValueOk(k.values[i].value))
  }

  // The tree before its external data has been loaded.
  function HollowValue(v: Value): Value {
    if v.External? then Hollow(|v.data|) else v
  }

  function HollowKey(k: Key): (r: Key)
    ensures |r.keys| == |k.keys| && |r.values| == |k.values|
    decreases k
  {
    Key(seq(|k.keys|, i requires 0 <= i < |k.keys| => Entry(k.keys[i].id, HollowKey(k.keys[i].value))),
      seq(|k.values|, i requires 0 <= i < |k.values| => Entry(k.values[i].id, HollowValue(k.values[i].value))))
  }

  // ----- maps by number -----

  function Insert<T>(s: seq<Entry<T>>, e: Entry<T>): seq<Entry<T>> {
    if s == [] then [e]
    else if s[0].id == e.id then [e] + s[1..]
    else if e.id < s[0].id then [e] + s
    else [s[0]] + Insert(s[1..], e)
  }

  lemma {:induction false} InsertLast<T>(s: seq<Entry<T>>, e: Entry<T>)
    requires forall i :: 0 <= i < |s| ==> s[i].id < e.id
    ensures Insert(s, e) == s + [e]
  {
    if s != [] {
      InsertLast(s[1..], e);
    }
  }

  ghost predicate Ordered<T>(s: seq<Entry<T>>) {
    forall i, j :: 0 <= i < j < |s| ==> s[i].id < s[j].id
  }

  // The same entries in order, but for the one of a number.
  ghost predicate SetsOne<T>(s: seq<Entry<T>>, e: Entry<T>, r: seq<Entry<T>>) {
    && Ordered(r) && e in r
    && (forall i :: 0 <= i < |r| ==> r[i] == e || (r[i] in s && r[i].id != e.id))
    && (forall i :: 0 <= i < |s| && s[i].id != e.id ==> s[i] in r)
  }

  lemma {:induction false} InsertIsMap<T>(s: seq<Entry<T>>, e: Entry<T>)
    requires Ordered(s)
    ensures SetsOne(s, e, Insert(s, e))
  {
    if s != [] && s[0].id < e.id {
      InsertIsMap(s[1..], e);
      SetsOneBehind(s, e, Insert(s[1..], e));
    }
  }

  lemma SetsOneBehind<T>(s: seq<Entry<T>>, e: Entry<T>, r: seq<Entry<T>>)
    requires Ordered(s) && s != [] && s[0].id < e.id && SetsOne(s[1..], e, r)
    ensures SetsOne(s, e, [s[0]] + r)
  {
    forall j | 0 <= j < |r| ensures s[0].id < r[j].id && (r[j] == e || r[j] in s) {
      if r[j] != e {
        FirstIsLeast(s, r[j]);
      }
    }
    forall i | 0 < i < |s| && s[i].id != e.id ensures s[i] in r {
      assert s[1..][i - 1] == s[i];
    }
  }

  lemma FirstIsLeast<T>(s: seq<Entry<T>>, x: Entry<T>)
    requires Ordered(s) && s != [] && x in s[1..]
    ensures s[0].id < x.id && x in s
  {
    var k :| 0 <= k < |s| - 1 && s[1..][k] == x;
    assert s[k + 1] == x;
  }

  // ----- loading -----

  function LoadValue(s: Bytes): (r: Got<Value>)
    ensures r.Got? ==> |r.rest| < |s|
  {
    if s == [] then Wild
    else
      var tag, t := s[0], s[1..];
      if tag == FLOAT then (if |t| < 4 then Wild else Got(Float(t[..4]), t[4..]))
      else
        match Get4(t)
        case Wild => Wild
        case Got(n, u) =>
          if tag == BIN32 then Got(Bin32(n), u)
          else if tag == INT32 then Got(Int32(n), u)
          else if n < 0 then Wild
          else if tag == EXTERNAL_BINARY then Got(Hollow(n), u)
          else if |u| < n || tag > FLOAT then Wild
          else Got(if tag == BINARY then Binary(u[..n]) else String(u[..n]), u[n..])
  }

  // A tree from a clear key. A count below zero does not end inside the input.
  function LoadNew(s: Bytes): (r: Got<Key>)
    ensures r.Got? ==> |r.rest| < |s|
    decreases |s|, 0
  {
    match Get4(s)
    case Wild => Wild
    case Got(count, t) =>
      match LoadKeys(t, count, 0, [])
      case Wild => Wild
      case Got(keys, u) =>
        match Get4(u)
        case Wild => Wild
        case Got(n, w) =>
          match LoadValues(w, n, 0, [])
          case Wild => Wild
          case Got(values, x) => Got(Key(keys, values), x)
  }

  function LoadKeys(s: Bytes, count: int, id: int, keys: seq<Entry<Key>>): (r: Got<seq<Entry<Key>>>)
    ensures r.Got? ==> |r.rest| <= |s|
    decreases |s|, 1
  {
    if count == 0 then Got(keys, s)
    else
      match Get4(s)
      case Wild => Wild
      case Got(d, t) =>
        match LoadNew(t)
        case Wild => Wild
        case Got(k, u) => LoadKeys(u, count - 1, Wrap32(id + d), Insert(keys, Entry(Wrap32(id + d), k)))
  }

  function LoadValues(s: Bytes, count: int, id: int, values: seq<Entry<Value>>): (r: Got<seq<Entry<Value>>>)
    ensures r.Got? ==> |r.rest| <= |s|
    decreases |s|
  {
    if count == 0 then Got(values, s)
    else
      match Get4(s)
      case Wild => Wild
      case Got(d, t) =>
        match LoadValue(t)
        case Wild => Wild
        case Got(v, u) => LoadValues(u, count - 1, Wrap32(id + d), Insert(values, Entry(Wrap32(id + d), v)))
  }

  // Fills in the external values.
  function FillValue(v: Value, s: Bytes): (r: Got<Value>) {
    if v.Hollow? then (if |s| < v.size then Wild else Got(External(s[..v.size]), s[v.size..]))
    else if v.External? then (if |s| < |v.data| then Wild else Got(External(s[..|v.data|]), s[|v.data|..]))
    else Got(v, s)
  }

  function LoadExternal(k: Key, s: Bytes): (r: Got<Key>)
    decreases k
  {
    match FillKeys(k, 0, s)
    case Wild => Wild
    case Got(keys, t) =>
      match FillValues(k, 0, t)
      case Wild => Wild
      case Got(values, u) => Got(Key(keys, values), u)
  }

  function FillKeys(k: Key, i: nat, s: Bytes): (r: Got<seq<Entry<Key>>>)
    requires i <= |k.keys|
    decreases k, |k.keys| - i
  {
    if i == |k.keys| then Got([], s)
    else
      match LoadExternal(k.keys[i].value, s)
      case Wild => Wild
      case Got(key, t) =>
        match FillKeys(k, i + 1, t)
        case Wild => Wild
        case Got(rest, u) => Got([Entry(k.keys[i].id, key)] + rest, u)
  }

  function FillValues(k: Key, i: nat, s: Bytes): (r: Got<seq<Entry<Value>>>)
    requires i <= |k.values|
    decreases |k.values| - i
  {
    if i == |k.values| then Got([], s)
    else
      match FillValue(k.values[i].value, s)
      case Wild => Wild
      case Got(v, t) =>
        match FillValues(k, i + 1, t)
        case Wild => Wild
        case Got(rest, u) => Got([Entry(k.values[i].id, v)] + rest, u)
  }

  // ----- the round trip of the tree -----

  lemma FrontOf(d: Bytes, t: Bytes)
    ensures (d + t)[..|d|] == d && (d + t)[|d|..] == t
  {
  }

  lemma SizedRoundTrip(n: nat, t: Bytes)
    requires IsInt32(n)
    ensures Get4(Put4(n) + t) == Got(n, t)
  {
    Get4OfPut4(n, t);
    WrapOfMod(n);
  }

  lemma {:induction false} ValueRoundTrip(v: Value, t: Bytes)
    requires ValueOk(v)
    ensures LoadValue(SaveValue(v) + t) == Got(HollowValue(v), t)
  {
    hide Get4, Put4, Wrap32;
    var s := SaveValue(v) + t;
    match v
    case Bin32(i) =>
      assert s[1..] == Put4(i) + t;
      Get4OfPut4(i, t);
      WrapOfMod(i);
    case Int32(i) =>
      assert s[1..] == Put4(i) + t;
      Get4OfPut4(i, t);
      WrapOfMod(i);
    case Float(b) =>
      assert s[1..] == b + t;
    case External(d) =>
      assert s[1..] == Put4(|d|) + t;
      SizedRoundTrip(|d|, t);
    case _ =>
      DataRoundTrip(v, t);
  }

  lemma {:induction false} DataRoundTrip(v: Value, t: Bytes)
    requires ValueOk(v) && (v.Binary? || v.String?)
    ensures LoadValue(SaveValue(v) + t) == Got(v, t)
  {
    var s, u := SaveValue(v) + t, v.data + t;
    assert IsInt32(|v.data|);
    hide *;
    SavedData(v, t);
    SizedRoundTrip(|v.data|, u);
    FrontOf(v.data, t);
    LoadData(s, |v.data|, u);
  }

  lemma SavedData(v: Value, t: Bytes)
    requires v.Binary? || v.String?
    ensures var s := SaveValue(v) + t;
      s != [] && s[1..] == Put4(|v.data|) + (v.data + t) && s[0] == (if v.Binary? then BINARY else STRING)
  {
    hide Put4;
  }

  lemma LoadData(s: Bytes, n: nat, u: Bytes)
    requires s != [] && s[0] in {BINARY, STRING} && Get4(s[1..]) == Got(n, u) && n <= |u|
    ensures LoadValue(s) == Got(if s[0] == BINARY then Binary(u[..n]) else String(u[..n]), u[n..])
  {
    hide Get4;
  }

  lemma {:induction false} TreeRoundTrip(k: Key, t: Bytes)
    requires KeyOk(k)
    ensures LoadNew(Save(k) + t) == Got(HollowKey(k), t)
    decreases k
  {
    hide Get4, Put4, Wrap32, LoadKeys, LoadValues, SaveKeys, SaveValues;
    var v := SaveValues(k, 0) + t;
    var u := Put4(|k.values|) + v;
    var w := SaveKeys(k, 0) + u;
    assert Save(k) + t == Put4(|k.keys|) + w;
    Get4OfPut4(|k.keys|, w);
    WrapOfMod(|k.keys|);
    var h := HollowKey(k);
    assert h.keys[..0] == [] && h.values[..0] == [];
    KeysRoundTrip(k, h, 0, u);
    Get4OfPut4(|k.values|, v);
    WrapOfMod(|k.values|);
    ValuesRoundTrip(k, h, 0, t);
  }

  lemma Regroup(a: Bytes, b: Bytes, c: Bytes, t: Bytes)
    ensures a + (b + c) + t == a + (b + (c + t))
  {
  }

  lemma LoadOneKey(s: Bytes, count: int, id: int, keys: seq<Entry<Key>>, d: int, t: Bytes, u: Bytes, e: Entry<Key>)
    requires count != 0 && Get4(s) == Got(d, t) && LoadNew(t) == Got(e.value, u) && e.id == Wrap32(id + d)
    ensures LoadKeys(s, count, id, keys) == LoadKeys(u, count - 1, e.id, Insert(keys, e))
  {
  }

  lemma {:induction false} KeysRoundTrip(k: Key, h: Key, i: nat, t: Bytes)
    requires KeyOk(k) && h == HollowKey(k) && i <= |k.keys|
    ensures LoadKeys(SaveKeys(k, i) + t, |k.keys| - i, PrevKey(k, i), h.keys[..i]) == Got(h.keys, t)
    decreases k, |k.keys| - i
  {
    hide Get4, Put4, Wrap32, Save, LoadNew, Insert;
    if i == |k.keys| {
      assert SaveKeys(k, i) + t == t && h.keys[..i] == h.keys;
    } else {
      var e := k.keys[i];
      var w := SaveKeys(k, i + 1) + t;
      var u := Save(e.value) + w;
      Regroup(Put4(e.id - PrevKey(k, i)), Save(e.value), SaveKeys(k, i + 1), t);
      Get4OfPut4(e.id - PrevKey(k, i), u);
      Delta(PrevKey(k, i), e.id);
      TreeRoundTrip(e.value, w);
      InsertLast(h.keys[..i], h.keys[i]);
      assert h.keys[..i] + [h.keys[i]] == h.keys[..i + 1];
      var d := Wrap32(e.id - PrevKey(k, i));
      LoadOneKey(SaveKeys(k, i) + t, |k.keys| - i, PrevKey(k, i), h.keys[..i], d, u, w, h.keys[i]);
      KeysRoundTrip(k, h, i + 1, t);
    }
  }

  lemma {:induction false} ValuesRoundTrip(k: Key, h: Key, i: nat, t: Bytes)
    requires KeyOk(k) && h == HollowKey(k) && i <= |k.values|
    ensures LoadValues(SaveValues(k, i) + t, |k.values| - i, PrevValue(k, i), h.values[..i]) == Got(h.values, t)
    decreases |k.values| - i
  {
    hide Get4, Put4, Wrap32, SaveValue, LoadValue, Insert;
    if i == |k.values| {
      assert SaveValues(k, i) + t == t && h.values[..i] == h.values;
    } else {
      var e := k.values[i];
      var w := SaveValues(k, i + 1) + t;
      var u := SaveValue(e.value) + w;
      Regroup(Put4(e.id - PrevValue(k, i)), SaveValue(e.value), SaveValues(k, i + 1), t);
      Get4OfPut4(e.id - PrevValue(k, i), u);
      Delta(PrevValue(k, i), e.id);
      ValueRoundTrip(e.value, w);
      InsertLast(h.values[..i], h.values[i]);
      assert h.values[..i] + [h.values[i]] == h.values[..i + 1];
      ValuesRoundTrip(k, h, i + 1, t);
    }
  }

  // ----- the round trip of the external data -----

  lemma {:induction false} FillValueRoundTrip(v: Value, t: Bytes)
    requires ValueOk(v)
    ensures FillValue(HollowValue(v), ExternalOf(v) + t) == Got(v, t)
  {
    if v.External? {
      FrontOf(v.data, t);
    } else {
      assert [] + t == t;
    }
  }

  lemma {:induction false} ExternalRoundTrip(k: Key, t: Bytes)
    requires KeyOk(k)
    ensures LoadExternal(HollowKey(k), ExternalSave(k) + t) == Got(k, t)
    decreases k
  {
    hide ExternalKeys, ExternalValues, FillKeys, FillValues, HollowKey, KeyOk;
    var u := ExternalValues(k, 0) + t;
    assert ExternalSave(k) + t == ExternalKeys(k, 0) + u;
    FillKeysRoundTrip(k, HollowKey(k), 0, u);
    FillValuesRoundTrip(k, HollowKey(k), 0, t);
    assert k.keys[0..] == k.keys && k.values[0..] == k.values;
  }

  lemma {:induction false} FillKeysRoundTrip(k: Key, h: Key, i: nat, t: Bytes)
    requires KeyOk(k) && h == HollowKey(k) && i <= |k.keys|
    ensures FillKeys(h, i, ExternalKeys(k, i) + t) == Got(k.keys[i..], t)
    decreases k, |k.keys| - i
  {
    hide ExternalSave, LoadExternal;
    if i == |k.keys| {
      assert [] + t == t;
    } else {
      var w := ExternalKeys(k, i + 1) + t;
      assert ExternalKeys(k, i) + t == ExternalSave(k.keys[i].value) + w;
      ExternalRoundTrip(k.keys[i].value, w);
      FillKeysRoundTrip(k, h, i + 1, t);
      assert k.keys[i..] == [k.keys[i]] + k.keys[i + 1..];
    }
  }

  lemma {:induction false} FillValuesRoundTrip(k: Key, h: Key, i: nat, t: Bytes)
    requires KeyOk(k) && h == HollowKey(k) && i <= |k.values|
    ensures FillValues(h, i, ExternalValues(k, i) + t) == Got(k.values[i..], t)
    decreases |k.values| - i
  {
    hide FillValue, ExternalOf, HollowValue;
    if i == |k.values| {
      assert [] + t == t;
    } else {
      var w := ExternalValues(k, i + 1) + t;
      assert ExternalValues(k, i) + t == ExternalOf(k.values[i].value) + w;
      FillValueRoundTrip(k.values[i].value, w);
      FillValuesRoundTrip(k, h, i + 1, t);
      assert k.values[i..] == [k.values[i]] + k.values[i + 1..];
    }
  }

  // ----- whole files -----

  datatype Loaded = Loaded(key: Key, error: bool) | ReadBehind | OldFormat

  const CLEAR := Key([], [])

  // The number of floats in a tree.
  function Floats(k: Key): nat
    decreases k
  {
    FloatKeys(k, 0) + FloatValues(k, 0)
  }

  function FloatKeys(k: Key, i: nat): nat
    requires i <= |k.keys|
    decreases k, |k.keys| - i
  {
    if i == |k.keys| then 0 else Floats(k.keys[i].value) + FloatKeys(k, i + 1)
  }

  function FloatValues(k: Key, i: nat): nat
    requires i <= |k.values|
    decreases |k.values| - i
  {
    if i == |k.values| then 0 else (if k.values[i].value.Float? then 1 else 0) + FloatValues(k, i + 1)
  }

  function Header(sizeUncompressed: int, sizeCompressed: int, sizeExternal: int): (r: Bytes)
    ensures |r| == CB_HEADER_FAST
  {
    Put4(FILE_ID) + Put4(VERSION_FAST) + Put4(sizeUncompressed) + Put4(sizeCompressed) + Put4(sizeExternal)
  }

  // "XIF", 0x1a, version 2, and three sizes.
  lemma HeaderBytes(u: int, c: int, e: int)
    ensures Header(u, c, e) == [0x58, 0x49, 0x46, 0x1a, 2, 0, 0, 0] + Put4(u) + Put4(c) + Put4(e)
  {
    FourBytes(0x1a464958);
    FourBytes(2);
    assert Put4(FILE_ID) + Put4(VERSION_FAST) == [0x58, 0x49, 0x46, 0x1a, 2, 0, 0, 0];
  }

  function Field(data: Bytes, at: nat): int
    requires at + 4 <= |data|
  {
    Wrap32(FromLe(data[at..at + 4]))
  }

  // A file from a tree. `junk` is what the buffer holds behind the tree when
  // the size computed in advance is too large.
  function VData(k: Key, fast: bool, junk: Bytes, compress: Bytes -> Bytes): Bytes {
    var size := |Save(k)| + |junk|;
    var externals := ExternalSave(k);
    if fast then Header(0, size, |externals|) + (Save(k) + (externals + junk))
    else
      var z := compress(Save(k) + junk);
      Header(size, |z|, |externals|) + (z + externals)
  }

  // The externals behind a tree; what is left over is an error.
  function LoadRest(k: Key, s: Bytes): Loaded {
    match LoadExternal(k, s)
    case Wild => ReadBehind
    case Got(key, t) => Loaded(key, t != [])
  }

  function LoadPlain(s: Bytes): Loaded {
    match LoadNew(s)
    case Wild => ReadBehind
    case Got(k, t) => LoadRest(k, t)
  }

  // A compressed tree of `cb` bytes, and the externals if there are any.
  function LoadCompressed(cb: nat, z: Bytes, externals: Option<Bytes>, uncompress: Bytes -> Option<Bytes>): Loaded {
    match uncompress(z)
    case None => Loaded(CLEAR, true)
    case Some(d) =>
      if |d| > cb then Loaded(CLEAR, true)
      else if |d| < cb then ReadBehind
      else
        match LoadNew(d)
        case Wild => ReadBehind
        case Got(k, t) => if t != [] || externals.None? then Loaded(k, t != []) else LoadRest(k, externals.value)
  }

  function LoadKey(data: Bytes, uncompress: Bytes -> Option<Bytes>): Loaded {
    if |data| < CB_HEADER_OLD || Field(data, 0) != FILE_ID then Loaded(CLEAR, true)
    else
      var version, cb := Field(data, 4), Field(data, 8);
      if version == VERSION_OLD then OldFormat
      else if version == VERSION_NEW then
        if cb == 0 then LoadPlain(data[CB_HEADER_OLD..])
        else if cb < 0 then ReadBehind
        else LoadCompressed(cb, data[CB_HEADER_OLD..], None, uncompress)
      else if version == VERSION_FAST then
        if |data| < CB_HEADER_FAST then ReadBehind
        else if cb == 0 then LoadPlain(data[CB_HEADER_FAST..])
        else
          var n := Field(data, 12);
          if cb < 0 || n < 0 || |data| < CB_HEADER_FAST + n then ReadBehind
          else LoadCompressed(cb, data[CB_HEADER_FAST..][..n], Some(data[CB_HEADER_FAST..][n..]), uncompress)
      else Loaded(CLEAR, true)
  }

  lemma {:induction false} HeaderFields(u: int, c: int, e: int, t: Bytes)
    requires IsInt32(u) && IsInt32(c)
    ensures var d := Header(u, c, e) + t;
      && Field(d, 0) == FILE_ID && Field(d, 4) == VERSION_FAST && Field(d, 8) == u && Field(d, 12) == c
      && d[CB_HEADER_FAST..] == t
  {
    hide Put4, Wrap32;
    var d := Header(u, c, e) + t;
    assert d[0..4] == Put4(FILE_ID) && d[4..8] == Put4(VERSION_FAST) && d[8..12] == Put4(u) && d[12..16] == Put4(c);
    FieldOfPut4(FILE_ID);
    FieldOfPut4(VERSION_FAST);
    FieldOfPut4(u);
    FieldOfPut4(c);
  }

  lemma FieldOfPut4(v: int)
    requires IsInt32(v)
    ensures Wrap32(FromLe(Put4(v))) == v
  {
    Get4OfPut4(v, []);
    assert (Put4(v) + [])[..4] == Put4(v);
    WrapOfMod(v);
  }

  // Files without the four bytes, and shorter ones, are refused, and so are those
  // of any other version.
  lemma RefusedHeaders(data: Bytes, version: Byte, uncompress: Bytes -> Option<Bytes>)
    ensures |data| < 12 || data[..4] != [0x58, 0x49, 0x46, 0x1a] ==> LoadKey(data, uncompress) == Loaded(CLEAR, true)
    ensures |data| >= 12 && data[4..8] == [version, 0, 0, 0] && version > 2 ==>
      LoadKey(data, uncompress) == Loaded(CLEAR, true)
  {
    if |data| >= 12 {
      if Field(data, 0) == FILE_ID {
        SameField(data[0..4]);
        assert data[0..4] == data[..4];
      }
      if data[4..8] == [version, 0, 0, 0] {
        FourBytes(version);
        FieldOfPut4(version);
      }
    }
  }

  lemma SameField(s: Bytes)
    requires |s| == 4 && Wrap32(FromLe(s)) == FILE_ID
    ensures s == [0x58, 0x49, 0x46, 0x1a]
  {
    assert FromLe(s[3..]) == s[3] && FromLe(s[2..]) == s[2] + 256 * FromLe(s[3..]) by {
      assert s[3..][1..] == [] && s[2..][1..] == s[3..];
    }
    assert FromLe(s[1..]) == s[1] + 256 * FromLe(s[2..]) by {
      assert s[1..][1..] == s[2..];
    }
    assert FromLe(s) == s[0] + 256 * FromLe(s[1..]);
  }

  // A file of version 1: a plain tree with its externals, or a compressed tree
  // without them.
  lemma {:induction false} VersionOne(k: Key, t: Bytes, z: Bytes, uncompress: Bytes -> Option<Bytes>)
    requires KeyOk(k) && |Save(k)| <= 0x7fff_ffff
    ensures var h: Bytes := [0x58, 0x49, 0x46, 0x1a, 1, 0, 0, 0];
      && LoadKey(h + [0, 0, 0, 0] + (Save(k) + (ExternalSave(k) + t)), uncompress) == Loaded(k, t != [])
      && (uncompress(z) == Some(Save(k)) ==>
            LoadKey(h + Put4(|Save(k)|) + z, uncompress) == Loaded(HollowKey(k), false))
  {
    hide Save, ExternalSave, KeyOk, LoadKey, Put4, Wrap32, LoadNew, LoadExternal, HollowKey;
    var n := |Save(k)|;
    TreeNotEmpty(k);
    TreeRoundTrip(k, ExternalSave(k) + t);
    ExternalRoundTrip(k, t);
    TreeRoundTrip(k, []);
    assert Save(k) + [] == Save(k);
    VersionOneFields(0, Save(k) + (ExternalSave(k) + t), uncompress);
    VersionOneFields(n, z, uncompress);
    FourBytes(0);
  }

  // A tree that cannot be uncompressed, or is larger than the header says, is an
  // error.
  lemma BadCompression(n: nat, z: Bytes, e: int, x: Bytes, uncompress: Bytes -> Option<Bytes>)
    requires 0 < n <= 0x7fff_ffff && |z| <= 0x7fff_ffff && (uncompress(z).None? || |uncompress(z).value| > n)
    ensures LoadKey([0x58, 0x49, 0x46, 0x1a, 1, 0, 0, 0] + Put4(n) + z, uncompress) == Loaded(CLEAR, true)
    ensures LoadKey(Header(n, |z|, e) + (z + x), uncompress) == Loaded(CLEAR, true)
  {
    hide Put4, Wrap32, Header, Field, LoadNew;
    VersionOneFields(n, z, uncompress);
    HeaderFields(n, |z|, e, z + x);
    FrontOf(z, x);
  }

  lemma VersionOneFields(n: nat, s: Bytes, uncompress: Bytes -> Option<Bytes>)
    requires n <= 0x7fff_ffff
    ensures LoadKey([0x58, 0x49, 0x46, 0x1a, 1, 0, 0, 0] + Put4(n) + s, uncompress) ==
      if n == 0 then LoadPlain(s) else LoadCompressed(n, s, None, uncompress)
  {
    hide LoadKey, LoadPlain, LoadCompressed, Wrap32, Put4;
    var h: Bytes := [0x58, 0x49, 0x46, 0x1a, 1, 0, 0, 0];
    FourBytes(0x1a464958);
    FourBytes(1);
    assert h == Put4(0x1a464958) + Put4(1);
    hide FromLe;
    FieldsOf(0x1a464958, 1, n, s);
    LoadsOne(h + Put4(n) + s, n, s, uncompress);
  }

  lemma FieldsOf(a: int, b: int, c: int, s: Bytes)
    requires IsInt32(a) && IsInt32(b) && IsInt32(c)
    ensures var d := Put4(a) + Put4(b) + Put4(c) + s;
      Field(d, 0) == a && Field(d, 4) == b && Field(d, 8) == c && d[12..] == s
  {
    hide Put4, Wrap32;
    var d := Put4(a) + Put4(b) + Put4(c) + s;
    assert d[0..4] == Put4(a) && d[4..8] == Put4(b) && d[8..12] == Put4(c);
    FieldOfPut4(a);
    FieldOfPut4(b);
    FieldOfPut4(c);
  }

  lemma LoadsOne(d: Bytes, n: nat, s: Bytes, uncompress: Bytes -> Option<Bytes>)
    requires |d| >= 12 && Field(d, 0) == 0x1a464958 && Field(d, 4) == 1 && Field(d, 8) == n && d[12..] == s
    ensures LoadKey(d, uncompress) == if n == 0 then LoadPlain(s) else LoadCompressed(n, s, None, uncompress)
  {
    hide Field, LoadPlain, LoadCompressed;
  }

  ghost predicate Inverse(compress: Bytes -> Bytes, uncompress: Bytes -> Option<Bytes>) {
    forall s :: uncompress(compress(s)) == Some(s)
  }

  // The sizes of a file fit the fields of its header.
  predicate Fits(k: Key, junk: Bytes, compress: Bytes -> Bytes) {
    |Save(k)| + |junk| <= 0x7fff_ffff && |compress(Save(k) + junk)| <= 0x7fff_ffff
  }

  // A tree comes back from its file, and without an error exactly if it has no
  // floats, since the size of each is computed four bytes too large.
  lemma {:induction false} FileRoundTrip(k: Key, fast: bool, junk: Bytes, compress: Bytes -> Bytes,
                                         uncompress: Bytes -> Option<Bytes>)
    requires KeyOk(k) && |junk| == 4 * Floats(k) && Inverse(compress, uncompress) && Fits(k, junk, compress)
    ensures var r := LoadKey(VData(k, fast, junk, compress), uncompress);
      r.Loaded? && (r.error <==> Floats(k) > 0) && (fast || Floats(k) == 0 ==> r.key == k)
  {
    hide Put4, Wrap32, Header, Field, Save, ExternalSave, LoadNew, LoadExternal, KeyOk, Floats;
    var s, x := Save(k), ExternalSave(k);
    var size := |s| + |junk|;
    TreeNotEmpty(k);
    if fast {
      HeaderFields(0, size, |x|, s + (x + junk));
      TreeRoundTrip(k, x + junk);
      ExternalRoundTrip(k, junk);
    } else {
      var z := compress(s + junk);
      HeaderFields(size, |z|, |x|, z + x);
      FrontOf(z, x);
      TreeRoundTrip(k, junk);
      ExternalRoundTrip(k, []);
      assert x + [] == x;
    }
  }

  lemma TreeNotEmpty(k: Key)
    ensures |Save(k)| >= 8
  {
  }
}
