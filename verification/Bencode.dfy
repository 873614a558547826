// Bencoding: the printer, the parser, and the length computed in advance.
module Bencode {
  import opened StreamInt
  import Arithmetic

  datatype Value = Int(i: int) | Str(s: Bytes) | List(l: seq<Value>) | Dict(d: seq<Entry>)

  datatype Entry = Entry(key: Bytes, value: Value)

  const INT_MAX := 0x7fff_ffff
  const LLONG_MAX := 0x7fff_ffff_ffff_ffff

  const COLON: Byte := 58
  const LOWER_D: Byte := 100
  const LOWER_E: Byte := 101
  const LOWER_I: Byte := 105
  const LOWER_L: Byte := 108
  const MINUS: Byte := 45
  const PLUS: Byte := 43

  predicate IsDigit(c: Byte) {
    48 <= c <= 57
  }

  // ----- dictionaries -----

  // Keys are compared byte by byte, as unsigned numbers.
  predicate Less(a: Bytes, b: Bytes) {
    b != [] && (a == [] || a[0] < b[0] || (a[0] == b[0] && Less(a[1..], b[1..])))
  }

  lemma {:induction false} LessTransitive(a: Bytes, b: Bytes, c: Bytes)
    requires Less(a, b) && Less(b, c)
    ensures Less(a, c)
  {
    if a != [] && a[0] == b[0] == c[0] {
      LessTransitive(a[1..], b[1..], c[1..]);
    }
  }

  lemma {:induction false} LessTotal(a: Bytes, b: Bytes)
    ensures Less(a, b) || a == b || Less(b, a)
    ensures !(Less(a, b) && Less(b, a)) && !Less(a, a)
  {
    if a != [] && b != [] && a[0] == b[0] {
      LessTotal(a[1..], b[1..]);
      assert a == [a[0]] + a[1..] && b == [b[0]] + b[1..];
    }
    if a != [] {
      LessTotal(a[1..], a[1..]);
    }
  }

  // At the first byte that differs the smaller comes first, and a prefix before what
  // it is a prefix of.
  lemma {:induction false} LessIsLexicographic(a: Bytes, b: Bytes)
    ensures Less(a, b) <==> exists k :: DiffersAt(a, b, k)
  {
    if Less(a, b) {
      var k := FirstDifference(a, b);
    }
    if k: nat :| DiffersAt(a, b, k) {
      DifferenceDecides(a, b, k);
    }
  }

  predicate DiffersAt(a: Bytes, b: Bytes, k: nat) {
    k <= |a| && k < |b| && a[..k] == b[..k] && (k == |a| || a[k] < b[k])
  }

  lemma {:induction false} FirstDifference(a: Bytes, b: Bytes) returns (k: nat)
    requires Less(a, b)
    ensures DiffersAt(a, b, k)
  {
    k := 0;
    if a != [] && a[0] == b[0] {
      k := FirstDifference(a[1..], b[1..]);
      assert a[..k + 1] == [a[0]] + a[1..][..k] && b[..k + 1] == [b[0]] + b[1..][..k];
      k := k + 1;
    }
  }

  lemma {:induction false} DifferenceDecides(a: Bytes, b: Bytes, k: nat)
    requires DiffersAt(a, b, k)
    ensures Less(a, b)
    decreases k
  {
    if k > 0 {
      assert a[0] == a[..k][0] == b[..k][0] == b[0];
      assert a[1..][..k - 1] == a[..k][1..] && b[1..][..k - 1] == b[..k][1..];
      DifferenceDecides(a[1..], b[1..], k - 1);
    }
  }

  predicate Sorted(d: seq<Entry>) {
    forall i, j :: 0 <= i < j < |d| ==> Less(d[i].key, d[j].key)
  }

  // A dictionary is kept in the order of its keys; a key that comes again
  // replaces the value.
  function Insert(d: seq<Entry>, k: Bytes, v: Value): seq<Entry> {
    if d == [] then [Entry(k, v)]
    else if d[0].key == k then [Entry(k, v)] + d[1..]
    else if Less(k, d[0].key) then [Entry(k, v)] + d
    else [d[0]] + Insert(d[1..], k, v)
  }

  ghost predicate Maps(d: seq<Entry>, k: Bytes, v: Value) {
    Entry(k, v) in d
  }

  lemma {:induction false} InsertSorted(d: seq<Entry>, k: Bytes, v: Value)
    requires Sorted(d)
    ensures Sorted(Insert(d, k, v))
    ensures forall x, w :: Maps(Insert(d, k, v), x, w) <==> if x == k then w == v else Maps(d, x, w)
  {
    var r := Insert(d, k, v);
    if d == [] || d[0].key == k || Less(k, d[0].key) {
      InsertInFront(d, k, v);
    } else {
      LessTotal(k, d[0].key);
      var t := Insert(d[1..], k, v);
      InsertSorted(d[1..], k, v);
      assert d == [d[0]] + d[1..];
      forall e | e in t
        ensures Less(d[0].key, e.key)
      {
        assert Maps(t, e.key, e.value);
        if e.key != k {
          assert Maps(d[1..], e.key, e.value);
        }
      }
      Consed(d[0], t);
      forall x, w
        ensures Maps(r, x, w) <==> if x == k then w == v else Maps(d, x, w)
      {
        assert Maps(r, x, w) <==> Entry(x, w) == d[0] || Maps(t, x, w);
        assert Maps(d, x, w) <==> Entry(x, w) == d[0] || Maps(d[1..], x, w);
      }
    }
  }

  lemma Consed(e: Entry, t: seq<Entry>)
    requires Sorted(t) && forall x :: x in t ==> Less(e.key, x.key)
    ensures Sorted([e] + t)
  {
  }

  lemma InsertInFront(d: seq<Entry>, k: Bytes, v: Value)
    requires Sorted(d) && (d == [] || d[0].key == k || Less(k, d[0].key))
    ensures Sorted(Insert(d, k, v))
    ensures forall x, w :: Maps(Insert(d, k, v), x, w) <==> if x == k then w == v else Maps(d, x, w)
  {
    LessTotal(k, k);
    var t := if d != [] && d[0].key == k then d[1..] else d;
    assert Insert(d, k, v) == [Entry(k, v)] + t;
    assert d != [] ==> d == [d[0]] + d[1..];
    forall e | e in t
      ensures Less(k, e.key) && e.key != k
    {
      var i :| 0 <= i < |d| && d[i] == e && (d[0].key == k ==> i > 0);
      if d[0].key != k && i > 0 {
        LessTransitive(k, d[0].key, e.key);
      }
      LessTotal(k, e.key);
    }
    Consed(Entry(k, v), t);
  }

  // A key behind all others is appended.
  lemma {:induction false} InsertLast(d: seq<Entry>, k: Bytes, v: Value)
    requires forall i :: 0 <= i < |d| ==> Less(d[i].key, k)
    ensures Insert(d, k, v) == d + [Entry(k, v)]
  {
    if d != [] {
      LessTotal(d[0].key, k);
      InsertLast(d[1..], k, v);
    }
  }

  // ----- numbers -----

  function Dec(n: nat): (r: Bytes)
    ensures r != [] && forall i :: 0 <= i < |r| ==> IsDigit(r[i])
  {
    if n < 10 then [48 + n] else Dec(n / 10) + [48 + n % 10]
  }

  function DecInt(i: int): Bytes {
    if i < 0 then [MINUS] + Dec(-i) else Dec(i)
  }

  // The digits at the front, read after `acc`.
  function Leading(s: Bytes, acc: nat): nat {
    if s == [] || !IsDigit(s[0]) then acc else Leading(s[1..], 10 * acc + (s[0] as int - 48))
  }

  predicate IsSpace(c: Byte) {
    c == 32 || 9 <= c <= 13
  }

  function SkipSpace(s: Bytes): Bytes {
    if s != [] && IsSpace(s[0]) then SkipSpace(s[1..]) else s
  }

  function Saturate(i: int): (r: int)
    ensures -LLONG_MAX - 1 <= r <= LLONG_MAX
  {
    if i < -LLONG_MAX - 1 then -LLONG_MAX - 1 else if i > LLONG_MAX then LLONG_MAX else i
  }

  // The number at the front of a string, as the C library reads it.
  function Atoll(s: Bytes): (r: int)
    ensures -LLONG_MAX - 1 <= r <= LLONG_MAX
  {
    var u := SkipSpace(s);
    if u != [] && u[0] == MINUS then Saturate(0 - Leading(u[1..], 0))
    else if u != [] && u[0] == PLUS then Saturate(Leading(u[1..], 0))
    else Saturate(Leading(u, 0))
  }

  // The same, cut off to 32 bits.
  function Atoi(s: Bytes): (r: int)
    ensures -INT_MAX - 1 <= r <= INT_MAX
  {
    var v := Atoll(s) % (2 * INT_MAX + 2);
    if v > INT_MAX then v - (2 * INT_MAX + 2) else v
  }

  lemma {:induction false} LeadingOfDec(n: nat, u: Bytes)
    ensures Leading(Dec(n) + u, 0) == Leading(u, n)
    decreases n
  {
    if n < 10 {
      assert (Dec(n) + u)[1..] == u;
    } else {
      var d: Byte := 48 + n % 10;
      assert Dec(n) + u == Dec(n / 10) + ([d] + u);
      LeadingOfDec(n / 10, [d] + u);
      assert ([d] + u)[1..] == u;
    }
  }

  lemma {:induction false} AtollOfDec(i: int, c: Byte, u: Bytes)
    requires -LLONG_MAX - 1 <= i <= LLONG_MAX && !IsDigit(c)
    ensures Atoll(DecInt(i) + [c] + u) == i
  {
    hide Dec;
    var n: nat := if i < 0 then -i else i;
    var t := Dec(n) + ([c] + u);
    LeadingOfDec(n, [c] + u);
    Arithmetic.ConcatIsAssociative(DecInt(i), [c], u);
    if i < 0 {
      Arithmetic.ConcatIsAssociative([MINUS], Dec(n), [c] + u);
      assert ([MINUS] + t)[1..] == t;
    }
  }

  // Any number of spaces, a sign, digits and something that is none: the value,
  // or the nearest that a 64-bit integer can be.
  lemma {:induction false} AtollOfText(spaces: Bytes, sign: Bytes, n: nat, c: Byte, u: Bytes)
    requires forall i :: 0 <= i < |spaces| ==> spaces[i] == 32 || 9 <= spaces[i] <= 13
    requires sign in [[], [0x2b], [0x2d]] && (c < 48 || c > 57)
    ensures Atoll(spaces + (sign + (Dec(n) + ([c] + u)))) ==
      if sign == [0x2d] then (if n <= 0x8000_0000_0000_0000 then 0 - n else -0x8000_0000_0000_0000)
      else if n < 0x8000_0000_0000_0000 then n else 0x7fff_ffff_ffff_ffff
  {
    hide Dec;
    var t := Dec(n) + ([c] + u);
    var number := sign + t;
    LeadingOfDec(n, [c] + u);
    assert IsDigit(t[0]) && !IsSpace(number[0]);
    SpacesSkipped(spaces, number);
    assert sign != [] ==> number[0] == sign[0] && number[1..] == t;
    assert sign == [] ==> number == t;
    hide Leading, SkipSpace;
  }

  lemma {:induction false} SpacesSkipped(spaces: Bytes, t: Bytes)
    requires (forall i :: 0 <= i < |spaces| ==> spaces[i] == 32 || 9 <= spaces[i] <= 13) && t != [] && !IsSpace(t[0])
    ensures SkipSpace(spaces + t) == t
  {
    if spaces == [] {
      assert spaces + t == t;
    } else {
      assert (spaces + t)[0] == spaces[0] && (spaces + t)[1..] == spaces[1..] + t;
      SpacesSkipped(spaces[1..], t);
    }
  }

  // Behind the spaces nothing else is skipped, and without a digit it is 0.
  lemma {:induction false} AtollOfOther(spaces: Bytes, t: Bytes)
    requires (forall i :: 0 <= i < |spaces| ==> spaces[i] == 32 || 9 <= spaces[i] <= 13) && t != []
    requires t[0] < 9 || 13 < t[0] < 32 || 32 < t[0] < 43 || t[0] == 44 || 45 < t[0] < 48 || t[0] > 57
    ensures Atoll(spaces + t) == 0
  {
    SpacesSkipped(spaces, t);
  }

  // `atoi` keeps the low 32 bits of it.
  lemma AtoiIsLow(s: Bytes)
    ensures -0x8000_0000 <= Atoi(s) < 0x8000_0000 && (Atoll(s) - Atoi(s)) % 0x1_0000_0000 == 0
  {
  }

  // ----- printing -----

  function Print(v: Value): Bytes
    decreases v
  {
    match v
    case Int(i) => [LOWER_I] + DecInt(i) + [LOWER_E]
    case Str(s) => PrintStr(s)
    case List(l) => [LOWER_L] + PrintItems(v, 0)
    case Dict(d) => [LOWER_D] + PrintEntries(v, 0)
  }

  function PrintStr(s: Bytes): Bytes {
    Dec(|s|) + [COLON] + s
  }

  // The items from `i` on, and the end.
  function PrintItems(v: Value, i: nat): Bytes
    requires v.List? && i <= |v.l|
    decreases v, |v.l| - i + 1
  {
    if i == |v.l| then [LOWER_E] else Print(v.l[i]) + PrintItems(v, i + 1)
  }

  function PrintEntries(v: Value, i: nat): Bytes
    requires v.Dict? && i <= |v.d|
    decreases v, |v.d| - i + 1
  {
    if i == |v.d| then [LOWER_E]
    else PrintStr(v.d[i].key) + (Print(v.d[i].value) + PrintEntries(v, i + 1))
  }

  // 64-bit numbers, lengths that fit an int, keys in order.
  predicate Encodable(v: Value)
    decreases v
  {
    match v
    case Int(i) => -LLONG_MAX - 1 <= i <= LLONG_MAX
    case Str(s) => |s| <= INT_MAX
    case List(l) => forall i :: 0 <= i < |l| ==> Encodable(l[i])
    case Dict(d) => Sorted(d) && forall i :: 0 <= i < |d| ==> |d[i].key| <= INT_MAX && Encodable(d[i].value)
  }

  // ----- parsing -----

  // What is parsed and what is left of the input. A string of negative length
  // throws.
  datatype Outcome = Done(value: Value, rest: Bytes) | Refused | Thrown

  function Find(s: Bytes, c: Byte): (k: nat)
    ensures k <= |s| && (k < |s| ==> s[k] == c) && forall i :: 0 <= i < k ==> s[i] != c
  {
    if s == [] || s[0] == c then 0 else 1 + Find(s[1..], c)
  }

  function Parse(s: Bytes): (r: Outcome)
    ensures r.Done? ==> |r.rest| < |s|
    decreases |s|, 0
  {
    if s == [] then Refused
    else if IsDigit(s[0]) then ParseStr(s)
    else if s[0] == LOWER_D then ParseDict(s[1..], [])
    else if s[0] == LOWER_I then ParseInt(s[1..])
    else if s[0] == LOWER_L then ParseList(s[1..], [])
    else Refused
  }

  function ParseStr(s: Bytes): (r: Outcome)
    ensures r.Done? ==> |r.rest| < |s|
  {
    var k := Find(s, COLON);
    if k == |s| then Refused
    else
      var l, u := Atoi(s), s[k + 1..];
      if l > |u| then Refused else if l < 0 then Thrown else Done(Str(u[..l]), u[l..])
  }

  function ParseInt(s: Bytes): (r: Outcome)
    ensures r.Done? ==> |r.rest| < |s|
  {
    var k := Find(s, LOWER_E);
    if k == |s| then Refused else Done(Int(Atoll(s)), s[k + 1..])
  }

  // The items of a list after `l`.
  function ParseList(s: Bytes, l: seq<Value>): (r: Outcome)
    ensures r.Done? ==> |r.rest| < |s|
    decreases |s|, 1
  {
    if s == [] then Refused
    else if s[0] == LOWER_E then Done(List(l), s[1..])
    else match Parse(s)
      case Done(v, u) => ParseList(u, l + [v])
      case x => x
  }

  function ParseDict(s: Bytes, d: seq<Entry>): (r: Outcome)
    ensures r.Done? ==> |r.rest| < |s|
    decreases |s|, 1
  {
    if s == [] then Refused
    else if s[0] == LOWER_E then Done(Dict(d), s[1..])
    else match Parse(s)
      case Done(k, u) =>
        if !k.Str? then Refused
        else (match Parse(u)
          case Done(v, w) => ParseDict(w, Insert(d, k.s, v))
          case x => x)
      case x => x
  }

  // ----- the bytes -----

  // The printed values, one behind the other; for a dictionary with their keys.
  function Joined(l: seq<Bytes>): Bytes {
    if l == [] then [] else l[0] + Joined(l[1..])
  }

  function Items(v: Value, i: nat): seq<Bytes>
    requires v.List? && i <= |v.l|
    decreases |v.l| - i
  {
    if i == |v.l| then [] else [Print(v.l[i])] + Items(v, i + 1)
  }

  function Pairs(v: Value, i: nat): seq<Bytes>
    requires v.Dict? && i <= |v.d|
    decreases |v.d| - i
  {
    if i == |v.d| then [] else [Print(Str(v.d[i].key)), Print(v.d[i].value)] + Pairs(v, i + 1)
  }

  lemma {:induction false} ItemsJoined(v: Value, i: nat)
    requires v.List? && i <= |v.l|
    ensures PrintItems(v, i) == Joined(Items(v, i)) + [0x65]
    decreases |v.l| - i
  {
    hide Print;
    if i < |v.l| {
      ItemsJoined(v, i + 1);
      assert Items(v, i)[1..] == Items(v, i + 1);
    }
  }

  lemma {:induction false} PairsJoined(v: Value, i: nat)
    requires v.Dict? && i <= |v.d|
    ensures PrintEntries(v, i) == Joined(Pairs(v, i)) + [0x65]
    decreases |v.d| - i
  {
    if i < |v.d| {
      PairsJoined(v, i + 1);
      var key, value, rest := Print(Str(v.d[i].key)), Print(v.d[i].value), Pairs(v, i + 1);
      assert key == PrintStr(v.d[i].key);
      hide Print, PrintStr;
      assert Pairs(v, i)[1..] == [value] + rest && ([value] + rest)[1..] == rest;
      Arithmetic.ConcatIsAssociative(key, value, Joined(rest));
      Arithmetic.ConcatIsAssociative(key + value, Joined(rest), [0x65]);
      Arithmetic.ConcatIsAssociative(key, value, PrintEntries(v, i + 1));
    }
  }

  // i42e, 4:spam, l...e and d...e.
  lemma {:induction false} Encodings(v: Value)
    ensures match v
      case Int(i) => Print(v) == [0x69] + (if i < 0 then [0x2d] + Dec(-i) else Dec(i)) + [0x65]
      case Str(s) => Print(v) == Dec(|s|) + [0x3a] + s
      case List(l) => Print(v) == [0x6c] + (Joined(Items(v, 0)) + [0x65])
      case Dict(d) => Print(v) == [0x64] + (Joined(Pairs(v, 0)) + [0x65])
  {
    if v.List? {
      ItemsJoined(v, 0);
    } else if v.Dict? {
      PairsJoined(v, 0);
    }
  }

  // The first byte says what kind of value follows.
  lemma {:induction false} KindOf(s: Bytes)
    requires s != [] && Parse(s).Done?
    ensures match Parse(s).value
      case Int(i) => s[0] == 0x69
      case Str(b) => 0x30 <= s[0] <= 0x39
      case List(l) => s[0] == 0x6c
      case Dict(d) => s[0] == 0x64
  {
    if s[0] == LOWER_L {
      ListStays(s[1..], []);
    } else if s[0] == LOWER_D {
      DictStays(s[1..], []);
    }
  }

  lemma {:induction false} ListStays(s: Bytes, l: seq<Value>)
    requires ParseList(s, l).Done?
    ensures ParseList(s, l).value.List?
    decreases |s|
  {
    if s[0] != LOWER_E {
      ListStays(Parse(s).rest, l + [Parse(s).value]);
    }
  }

  lemma {:induction false} DictStays(s: Bytes, d: seq<Entry>)
    requires ParseDict(s, d).Done?
    ensures ParseDict(s, d).value.Dict?
    decreases |s|
  {
    if s[0] != LOWER_E {
      var k := Parse(s);
      var v := Parse(k.rest);
      DictStays(v.rest, Insert(d, k.value.s, v.value));
    }
  }

  // ----- the round trip -----

  lemma FindAt(n: Bytes, c: Byte, u: Bytes)
    requires forall i :: 0 <= i < |n| ==> n[i] != c
    ensures Find(n + [c] + u, c) == |n|
    ensures (n + [c] + u)[|n| + 1..] == u
  {
    var p := n + [c] + u;
    assert p[|n|] == c && forall i :: 0 <= i < |n| ==> p[i] == n[i];
  }

  lemma AtoiOfDec(n: nat, c: Byte, u: Bytes)
    requires n <= INT_MAX && !IsDigit(c)
    ensures Atoi(Dec(n) + [c] + u) == n
  {
    hide Atoll, Dec;
    assert DecInt(n) == Dec(n);
    AtollOfDec(n, c, u);
  }

  lemma {:induction false} StrRoundTrip(s: Bytes, t: Bytes)
    requires |s| <= INT_MAX
    ensures ParseStr(PrintStr(s) + t) == Done(Str(s), t)
    ensures IsDigit(PrintStr(s)[0])
  {
    hide Atoi, Dec, Find;
    var n := Dec(|s|);
    var u := s + t;
    assert PrintStr(s) + t == n + [COLON] + u;
    AtoiOfDec(|s|, COLON, u);
    FindAt(n, COLON, u);
    assert u[..|s|] == s && u[|s|..] == t;
  }

  lemma {:induction false} IntRoundTrip(i: int, t: Bytes)
    requires -LLONG_MAX - 1 <= i <= LLONG_MAX
    ensures ParseInt(DecInt(i) + [LOWER_E] + t) == Done(Int(i), t)
  {
    hide Atoll, Dec, Find;
    AtollOfDec(i, LOWER_E, t);
    FindAt(DecInt(i), LOWER_E, t);
  }

  // Parsing what was printed gives the value back and leaves what follows it.
  lemma {:induction false} RoundTrip(v: Value, t: Bytes)
    requires Encodable(v)
    ensures Parse(Print(v) + t) == Done(v, t)
    ensures Print(v) != [] && Print(v)[0] != LOWER_E
    decreases v
  {
    hide Dec, DecInt, ParseStr, ParseInt, ParseList, ParseDict;
    var p := Print(v) + t;
    match v
    case Int(i) =>
      assert p[1..] == DecInt(i) + [LOWER_E] + t;
      IntRoundTrip(i, t);
    case Str(s) =>
      StrRoundTrip(s, t);
    case List(l) =>
      assert p[1..] == PrintItems(v, 0) + t;
      ItemsRoundTrip(v, 0, t);
    case Dict(d) =>
      assert p[1..] == PrintEntries(v, 0) + t;
      EntriesRoundTrip(v, 0, t);
  }

  lemma {:induction false} ItemsRoundTrip(v: Value, i: nat, t: Bytes)
    requires Encodable(v) && v.List? && i <= |v.l|
    ensures ParseList(PrintItems(v, i) + t, v.l[..i]) == Done(v, t)
    decreases v, |v.l| - i + 1
  {
    hide Dec, Find, Print, Parse;
    var p := PrintItems(v, i) + t;
    if i == |v.l| {
      assert p[1..] == t && v.l[..i] == v.l;
    } else {
      var u := PrintItems(v, i + 1) + t;
      assert p == Print(v.l[i]) + u;
      RoundTrip(v.l[i], u);
      assert v.l[..i] + [v.l[i]] == v.l[..i + 1];
      ItemsRoundTrip(v, i + 1, t);
    }
  }

  lemma KeyRoundTrip(s: Bytes, t: Bytes)
    requires |s| <= INT_MAX
    ensures Parse(PrintStr(s) + t) == Done(Str(s), t)
    ensures PrintStr(s) != [] && PrintStr(s)[0] != LOWER_E
  {
    hide Dec, ParseStr, ParseInt, ParseList, ParseDict;
    StrRoundTrip(s, t);
  }

  lemma {:induction false} EntriesRoundTrip(v: Value, i: nat, t: Bytes)
    requires Encodable(v) && v.Dict? && i <= |v.d|
    ensures ParseDict(PrintEntries(v, i) + t, v.d[..i]) == Done(v, t)
    decreases v, |v.d| - i + 1
  {
    hide Dec, Find, Atoi, Print, PrintStr, Insert;
    var p := PrintEntries(v, i) + t;
    if i == |v.d| {
      assert p[1..] == t && v.d[..i] == v.d;
    } else {
      var e := v.d[i];
      var w := PrintEntries(v, i + 1) + t;
      var u := Print(e.value) + w;
      assert p == PrintStr(e.key) + u;
      KeyRoundTrip(e.key, u);
      RoundTrip(e.value, w);
      InsertLast(v.d[..i], e.key, e.value);
      assert v.d[..i] + [e] == v.d[..i + 1];
      EntriesRoundTrip(v, i + 1, t);
    }
  }

  // ----- what is parsed can be printed -----

  lemma {:induction false} ParsedIsEncodable(s: Bytes)
    requires Parse(s).Done?
    ensures Encodable(Parse(s).value)
    decreases |s|, 0
  {
    if s[0] == LOWER_D {
      ParsedDictIsEncodable(s[1..], []);
    } else if s[0] == LOWER_L {
      ParsedListIsEncodable(s[1..], []);
    }
  }

  lemma {:induction false} ParsedListIsEncodable(s: Bytes, l: seq<Value>)
    requires ParseList(s, l).Done? && forall i :: 0 <= i < |l| ==> Encodable(l[i])
    ensures Encodable(ParseList(s, l).value)
    decreases |s|, 1
  {
    if s[0] != LOWER_E {
      ParsedIsEncodable(s);
      ParsedListIsEncodable(Parse(s).rest, l + [Parse(s).value]);
    }
  }

  predicate EntryOk(e: Entry) {
    |e.key| <= INT_MAX && Encodable(e.value)
  }

  lemma {:induction false} ParsedDictIsEncodable(s: Bytes, d: seq<Entry>)
    requires ParseDict(s, d).Done? && Sorted(d) && forall e :: e in d ==> EntryOk(e)
    ensures Encodable(ParseDict(s, d).value)
    decreases |s|, 1
  {
    hide Less, ParseStr, ParseInt, ParseList, Parse, Insert;
    if s[0] != LOWER_E {
      var k, u := Parse(s).value, Parse(s).rest;
      ParsedIsEncodable(s);
      ParsedIsEncodable(u);
      var v := Parse(u).value;
      var next := Insert(d, k.s, v);
      InsertSorted(d, k.s, v);
      forall e | e in next
        ensures EntryOk(e)
      {
        assert Maps(next, e.key, e.value);
        assert e.key != k.s ==> Maps(d, e.key, e.value);
      }
      ParsedDictIsEncodable(Parse(u).rest, next);
    } else {
      assert forall i :: 0 <= i < |d| ==> EntryOk(d[i]);
    }
  }

  // Whatever was parsed, however it was written, encodes to bytes that parse to
  // the same value: encoding it once more changes nothing.
  lemma {:induction false} ReencodingIsStable(s: Bytes)
    requires Parse(s).Done?
    ensures Parse(Print(Parse(s).value)) == Done(Parse(s).value, [])
  {
    hide Parse, Print;
    ParsedIsEncodable(s);
    var v := Parse(s).value;
    RoundTrip(v, []);
    assert Print(v) + [] == Print(v);
  }

  // Two values never print alike.
  lemma {:induction false} PrintIsInjective(v: Value, w: Value, t: Bytes, u: Bytes)
    requires Encodable(v) && Encodable(w) && Print(v) + t == Print(w) + u
    ensures v == w && t == u
  {
    hide Parse, Print;
    RoundTrip(v, t);
    RoundTrip(w, u);
  }

  // ----- the code -----

  // The length of the encoding.
  method PreRead(v: Value) returns (n: nat)
    ensures n == |Print(v)|
    decreases v
  {
    match v
    case Int(i) =>
      n := |DecInt(i)| + 2;
    case Str(s) =>
      n := |Dec(|s|)| + |s| + 1;
    case List(l) =>
      n := 2;
      for i := 0 to |l|
        invariant n + |PrintItems(v, i)| == |Print(v)| + 1
      {
        var m := PreRead(l[i]);
        n := n + m;
      }
    case Dict(d) =>
      n := 2;
      for i := 0 to |d|
        invariant n + |PrintEntries(v, i)| == |Print(v)| + 1
      {
        var m := PreRead(d[i].value);
        n := n + |Dec(|d[i].key|)| + |d[i].key| + m + 1;
      }
  }

  // Writes the encoding.
  method Read(v: Value) returns (w: Bytes)
    ensures w == Print(v)
    decreases v
  {
    match v
    case Int(i) =>
      w := [LOWER_I] + DecInt(i) + [LOWER_E];
    case Str(s) =>
      w := Dec(|s|) + [COLON] + s;
    case List(l) =>
      w := [LOWER_L];
      for i := 0 to |l|
        invariant w + PrintItems(v, i) == Print(v)
      {
        var r := Read(l[i]);
        assert w + PrintItems(v, i) == (w + r) + PrintItems(v, i + 1);
        w := w + r;
      }
      w := w + [LOWER_E];
    case Dict(d) =>
      w := [LOWER_D];
      for i := 0 to |d|
        invariant w + PrintEntries(v, i) == Print(v)
      {
        var k := Dec(|d[i].key|) + [COLON] + d[i].key;
        var r := Read(d[i].value);
        assert w + PrintEntries(v, i) == (w + k + r) + PrintEntries(v, i + 1);
        w := w + k + r;
      }
      w := w + [LOWER_E];
  }

  // Moves a cursor over the input, as far as the value reaches.
  method Write(s0: Bytes) returns (r: Outcome)
    ensures r == Parse(s0)
    decreases |s0|
  {
    hide Atoi, Atoll, Insert;
    var s := s0;
    if s == [] {
      return Refused;
    }
    var c := s[0];
    s := s[1..];
    if IsDigit(c) {
      r := ScanStr(s0);
    } else if c == LOWER_D {
      var d: seq<Entry> := [];
      while s != [] && s[0] != LOWER_E
        invariant |s| < |s0| && ParseDict(s, d) == Parse(s0)
        decreases |s|
      {
        var k := Write(s);
        if !k.Done? {
          return k;
        } else if !k.value.Str? {
          return Refused;
        }
        var v := Write(k.rest);
        if !v.Done? {
          return v;
        }
        d := Insert(d, k.value.s, v.value);
        s := v.rest;
      }
      r := if s == [] then Refused else Done(Dict(d), s[1..]);
    } else if c == LOWER_I {
      var a := s;
      while s != [] && s[0] != LOWER_E
        invariant |s| <= |a| && s == a[|a| - |s|..]
        invariant Find(a, LOWER_E) == |a| - |s| + Find(s, LOWER_E)
        decreases |s|
      {
        s := s[1..];
      }
      r := if s == [] then Refused else Done(Int(Atoll(a)), s[1..]);
    } else if c == LOWER_L {
      var l: seq<Value> := [];
      while s != [] && s[0] != LOWER_E
        invariant |s| < |s0| && ParseList(s, l) == Parse(s0)
        decreases |s|
      {
        var v := Write(s);
        if !v.Done? {
          return v;
        }
        l := l + [v.value];
        s := v.rest;
      }
      r := if s == [] then Refused else Done(List(l), s[1..]);
    } else {
      r := Refused;
    }
  }

  method ScanStr(a: Bytes) returns (r: Outcome)
    ensures r == ParseStr(a)
  {
    hide Atoi;
    var s := a;
    while s != [] && s[0] != COLON
      invariant |s| <= |a| && s == a[|a| - |s|..]
      invariant Find(a, COLON) == |a| - |s| + Find(s, COLON)
      decreases |s|
    {
      s := s[1..];
    }
    if s == [] {
      return Refused;
    }
    s := s[1..];
    assert s == a[Find(a, COLON) + 1..];
    var l := Atoi(a);
    if l > |s| {
      return Refused;
    } else if l < 0 {
      return Thrown;
    }
    r := Done(Str(s[..l]), s[l..]);
  }
}
