// The ring buffer of a peer link: one cell more than its capacity, so that the
// cursors meet only when it is empty.
module RingBuffer {
  import opened StreamInt

  class RingBuffer {
    var d: array<Byte>
    var r: nat
    var w: nat

    ghost predicate Valid()
      reads this
    {
      if d.Length == 0 then r == w == 0 else d.Length >= 2 && r < d.Length && w < d.Length
    }

    ghost function Contents(): Bytes
      reads this, d
      requires Valid()
    {
      if r <= w then d[r..w] else d[r..] + d[..w]
    }

    constructor ()
      ensures Valid() && fresh(d) && Size() == 0 && Contents() == []
    {
      d, r, w := new Byte[0], 0, 0;
    }

    function Size(): nat
      reads this
    {
      if d.Length == 0 then 0 else d.Length - 1
    }

    method Resize(n: nat)
      modifies this
      ensures Valid() && Size() == n && Contents() == []
      ensures fresh(d)
    {
      d, r, w := new Byte[if n == 0 then 0 else n + 1], 0, 0;
    }

    // ----- windows -----

    // The end of the contiguous bytes to read.
    function REnd(): nat
      reads this
    {
      if r <= w then w else d.Length
    }

    function CbR(): int
      reads this
    {
      REnd() - r
    }

    function CbRead(): int
      reads this
    {
      if r <= w then w - r else d.Length - r + w
    }

    // The end of the contiguous free cells.
    function WEnd(): int
      reads this
    {
      if r <= w then if r == 0 then d.Length - 1 else d.Length else r - 1
    }

    function CbW(): int
      reads this
    {
      if d.Length == 0 then 0 else WEnd() - w
    }

    function CbWrite(): int
      reads this
    {
      if d.Length == 0 then 0 else if r <= w then d.Length - w + r - 1 else r - w - 1
    }

    // What the windows promise: nothing is lost between the two counts, and a
    // contiguous window is empty only when the whole is.
    lemma Windows()
      requires Valid()
      ensures CbRead() == |Contents()| && CbRead() + CbWrite() == Size()
      ensures 0 <= CbR() <= CbRead() && (CbR() == 0 <==> CbRead() == 0)
      ensures 0 <= CbW() <= CbWrite() && (CbW() == 0 <==> CbWrite() == 0)
      ensures d[r..REnd()] == Contents()[..CbR()]
    {
    }

    lemma NoRoom()
      requires Valid() && Size() == 0
      ensures Contents() == []
    {
    }

    lemma Peek(i: nat, j: nat)
      requires Valid() && i <= j <= CbR()
      ensures r + j <= d.Length && j <= |Contents()| && d[r + i..r + j] == Contents()[i..j]
    {
    }

    // Moves the read cursor.
    method Skip(v: nat)
      requires Valid() && v <= CbR() && d.Length > 0
      modifies this`r, this`w
      ensures Valid() && Contents() == old(Contents())[v..]
      ensures CbR() == old(CbR()) - v || r == 0
      ensures old(CbR() == CbRead()) ==> CbR() == CbRead()
    {
      r := r + v;
      if r == d.Length {
        r := 0;
      }
      if r == w {
        r, w := 0, 0;
      }
    }

    // Moves the write cursor over `v` bytes that were put into the window.
    method Advance(v: nat)
      requires Valid() && v <= CbW()
      modifies this`w
      ensures Valid() && (d.Length > 0 ==> Contents() == old(Contents()) + d[old(w)..old(w) + v])
    {
      w := w + v;
      if w == d.Length && w != 0 {
        w := 0;
      }
    }

    // Puts bytes into the free window.
    method Store(s: Bytes)
      requires Valid() && |s| <= CbW() && d.Length > 0
      modifies d
      ensures Valid() && Contents() == old(Contents())
      ensures w + |s| <= d.Length && d[w..w + |s|] == s
    {
      forall i | 0 <= i < |s| {
        d[w + i] := s[i];
      }
      if r <= w {
        assert d[r..w] == old(d[r..w]);
      } else {
        assert d[r..] == old(d[r..]);
        assert d[..w] == old(d[..w]);
      }
    }

    // Puts bytes into the free window and moves the cursor.
    method Fill(s: Bytes)
      requires Valid() && |s| <= CbW()
      modifies this`w, d
      ensures Valid() && Contents() == old(Contents()) + s
      ensures CbWrite() == old(CbWrite()) - |s|
    {
      if d.Length == 0 {
        return;
      }
      Store(s);
      Advance(|s|);
    }

    method Write(s: Bytes)
      requires Valid() && |s| <= CbWrite()
      modifies this`w, d
      ensures Valid() && Contents() == old(Contents()) + s
    {
      var cb := if |s| < CbW() then |s| else CbW();
      Fill(s[..cb]);
      if cb < |s| {
        Fill(s[cb..]);
      }
      assert s == s[..cb] + s[cb..];
    }

    // Moves the contents to the start of the array.
    method Combine()
      requires Valid() && CbRead() > 0
      modifies this`r, this`w, d
      ensures Valid() && Contents() == old(Contents()) && CbR() == CbRead()
    {
      ghost var all := Contents();
      var c0 := CbR();
      var copy := d[r..REnd()];
      assert copy == all[..c0];
      Skip(c0);
      var c1 := CbR();
      assert d[r..REnd()] == all[c0..];
      copy := copy + d[r..REnd()];
      Skip(c1);
      assert copy == all;
      Restart(copy);
    }

    // The contents are `s`, from the start of the array.
    method Restart(s: Bytes)
      requires |s| < d.Length && d.Length >= 2
      modifies this`r, this`w, d
      ensures Valid() && Contents() == s && CbR() == CbRead()
    {
      forall i | 0 <= i < |s| {
        d[i] := s[i];
      }
      r, w := 0, |s|;
      assert d[..w] == s;
    }
  }
}
