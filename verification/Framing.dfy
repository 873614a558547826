// Cutting the byte stream of a peer into messages: four bytes of length, then
// the message; a zero length is a keep-alive.
module Framing {
  import opened StreamInt
  import Arithmetic
  import R = RingBuffer

  const LONGEST := 32 * 1024
  const BUFFER := 33 * 1024

  // The messages of a stream, the unfinished rest, and whether the stream
  // broke the protocol, in which case the rest starts at the bad length.
  datatype Frames = Frames(messages: seq<Bytes>, rest: Bytes, bad: bool)

  function Length(s: Bytes): nat
    requires |s| >= 4
  {
    0x1000000 * (s[0] as int) + 0x10000 * (s[1] as int) + 0x100 * (s[2] as int) + s[3] as int
  }

  lemma LengthIsBe(s: Bytes)
    requires |s| == 4
    ensures Length(s) == FromBe(s)
  {
    assert s[..3][..2][..1] == [s[0]] && s[..3][..2] == [s[0], s[1]] && s[..3] == [s[0], s[1], s[2]];
    var a, b, c: int := s[0] as int, s[1] as int, s[2] as int;
    assert FromBe([s[0]]) == a;
    assert FromBe(s[..3][..2]) == 256 * a + b;
    assert FromBe(s[..3]) == 256 * (256 * a + b) + c;
  }

  function Parse(s: Bytes): Frames
    decreases |s|
  {
    if |s| < 4 then Frames([], s, false)
    else
      var n := Length(s);
      if n == 0 then Parse(s[4..])
      else if n > LONGEST then Frames([], s, true)
      else if |s| < 4 + n then Frames([], s, false)
      else
        var f := Parse(s[4 + n..]);
        f.(messages := [s[4..4 + n]] + f.messages)
  }

  function Prepend(ms: seq<Bytes>, f: Frames): Frames {
    f.(messages := ms + f.messages)
  }

  // A stream that starts with a whole message, or with a keep-alive.
  lemma {:induction false} ParseHead(s: Bytes, t: Bytes)
    requires |s| >= 4 && Length(s) <= LONGEST && |s| == 4 + Length(s)
    ensures Parse(s + t) == Prepend(if Length(s) == 0 then [] else [s[4..]], Parse(t))
  {
    var n := Length(s);
    var all := s + t;
    assert Length(all) == Length(s) && all[4 + n..] == t && all[4..4 + n] == s[4..];
  }

  lemma PrependTwice(a: seq<Bytes>, b: seq<Bytes>, f: Frames)
    ensures Prepend(a, Prepend(b, f)) == Prepend(a + b, f)
    ensures Prepend([], f) == f
  {
    assert a + (b + f.messages) == a + b + f.messages;
    assert [] + f.messages == f.messages;
  }

  // `a` parses as the messages `ms`, followed by what `b` parses as.
  ghost predicate Cut(a: Bytes, ms: seq<Bytes>, b: Bytes) {
    Parse(a) == Prepend(ms, Parse(b))
  }

  lemma CutNothing(a: Bytes)
    ensures Cut(a, [], a)
  {
    PrependTwice([], [], Parse(a));
  }

  function MessageOf(s: Bytes): seq<Bytes>
    requires |s| >= 4 && |s| >= 4 + Length(s)
  {
    if Length(s) == 0 then [] else [s[4..4 + Length(s)]]
  }

  lemma CutMessage(a: Bytes, ms: seq<Bytes>, b: Bytes, one: seq<Bytes>) returns (ms': seq<Bytes>, b': Bytes)
    requires Cut(a, ms, b) && |b| >= 4 && |b| >= 4 + Length(b) && Length(b) <= LONGEST && one == MessageOf(b)
    ensures Cut(a, ms', b') && ms' == ms + one && b' == b[4 + Length(b)..]
  {
    ms', b' := ms + MessageOf(b), b[4 + Length(b)..];
    var s, t := b[..4 + Length(b)], b[4 + Length(b)..];
    assert b == s + t && Length(s) == Length(b);
    ParseHead(s, t);
    assert MessageOf(b) == if Length(s) == 0 then [] else [s[4..]];
    PrependTwice(ms, MessageOf(b), Parse(t));
  }

  lemma CutTwice(a: Bytes, ms: seq<Bytes>, b: Bytes, ns: seq<Bytes>, c: Bytes)
    requires Cut(a, ms, b) && Cut(b, ns, c)
    ensures ms + ns <= Parse(a).messages
    ensures Unfinished(c) ==> Parse(a) == Frames(ms + ns, c, false)
  {
    PrependTwice(ms, ns, Parse(c));
    if Unfinished(c) {
      assert Parse(c) == Frames([], c, false);
      assert ms + ns + [] == ms + ns;
    }
  }

  // ----- messages as they are sent -----

  // Every message behind its length, in four bytes, the high byte first.
  function Framed(ms: seq<Bytes>): Bytes {
    if ms == [] then [] else ToBe(4, |ms[0]|) + ms[0] + Framed(ms[1..])
  }

  lemma LengthOfFramed(m: Bytes)
    requires |m| < 0x1_0000_0000
    ensures Length(ToBe(4, |m|) + m) == |m|
  {
    var n := ToBe(4, |m|);
    BeRoundTrip(4, |m|);
    assert Pow256(4) == 0x1_0000_0000 by {
      assert Pow256(2) == 0x1_0000;
    }
    LengthIsBe(n);
    assert (n + m)[..4] == n;
  }

  // Messages of 1 byte to 32 KiB come back, with whatever follows them.
  lemma {:induction false} FramedParses(ms: seq<Bytes>, t: Bytes)
    requires forall i :: 0 <= i < |ms| ==> 0 < |ms[i]| <= 0x8000
    ensures Parse(Framed(ms) + t) == Prepend(ms, Parse(t))
    decreases |ms|
  {
    if ms == [] {
      assert Framed(ms) + t == t;
      PrependTwice([], [], Parse(t));
    } else {
      hide Parse, Prepend, Length;
      var m := ms[0];
      var s, u := ToBe(4, |m|) + m, Framed(ms[1..]) + t;
      LengthOfFramed(m);
      assert s[4..] == m;
      ParseHead(s, u);
      FramedParses(ms[1..], t);
      Arithmetic.ConcatIsAssociative(s, Framed(ms[1..]), t);
      PrependTwice([m], ms[1..], Parse(t));
      assert [m] + ms[1..] == ms;
    }
  }

  // Four zeros are no message, and a longer one breaks the protocol.
  lemma {:induction false} OtherLengths(s: Bytes, t: Bytes)
    requires |s| == 4
    ensures s == [0, 0, 0, 0] ==> Parse(s + t) == Parse(t)
    ensures FromBe(s) > 0x8000 ==> Parse(s + t) == Frames([], s + t, true)
  {
    LengthIsBe(s);
    assert (s + t)[..4] == s && (s + t)[4..] == t;
    assert Length(s + t) == Length(s);
  }

  // No message can be taken from `s`.
  predicate Unfinished(s: Bytes) {
    |s| < 4 || (0 < Length(s) <= LONGEST && |s| < 4 + Length(s))
  }

  ghost predicate Incremental(a: Bytes, b: Bytes) {
    var f := Parse(a);
    Parse(a + b) == if f.bad then f.(rest := f.rest + b) else Prepend(f.messages, Parse(f.rest + b))
  }

  lemma {:induction false} HeadIsIncremental(s: Bytes, t: Bytes, b: Bytes)
    requires |s| >= 4 && Length(s) <= LONGEST && |s| == 4 + Length(s)
    requires Incremental(t, b)
    ensures Incremental(s + t, b)
  {
    hide Parse, Prepend, Length;
    Arithmetic.ConcatIsAssociative(s, t, b);
    ParseHead(s, t);
    ParseHead(s, t + b);
    var ms: seq<Bytes> := if Length(s) == 0 then [] else [s[4..]];
    FramesBehind(ms, Parse(t), b, Parse(t + b), Parse(Parse(t).rest + b));
  }

  // Messages in front do not change how the rest goes on.
  lemma FramesBehind(ms: seq<Bytes>, f: Frames, b: Bytes, whole: Frames, next: Frames)
    requires whole == if f.bad then f.(rest := f.rest + b) else Prepend(f.messages, next)
    ensures var g := Prepend(ms, f);
      g.rest == f.rest && Prepend(ms, whole) == if g.bad then g.(rest := g.rest + b) else Prepend(g.messages, next)
  {
    PrependTwice(ms, f.messages, next);
  }

  // The messages of a stream that comes in two parts are those of the first
  // part, then those of what was left over followed by the second part.
  lemma {:induction false} ParseIsIncremental(a: Bytes, b: Bytes)
    ensures Incremental(a, b)
    decreases |a|
  {
    if |a| < 4 {
      PrependTwice([], [], Parse(a + b));
    } else if Length(a) <= LONGEST && |a| >= 4 + Length(a) {
      var s, t := a[..4 + Length(a)], a[4 + Length(a)..];
      assert Length(s) == Length(a) && a == s + t;
      ParseIsIncremental(t, b);
      HeadIsIncremental(s, t, b);
    } else {
      assert Length(a + b) == Length(a);
      PrependTwice([], [], Parse(a + b));
    }
  }

  // What is left over is too short to be a message.
  lemma {:induction false} RestIsUnfinished(s: Bytes)
    ensures var f := Parse(s);
      && Parse(f.rest) == Frames([], f.rest, f.bad)
      && (!f.bad ==> |f.rest| < 4 + LONGEST)
    decreases |s|
  {
    hide Length;
    if |s| >= 4 {
      var n := Length(s);
      if n == 0 {
        RestIsUnfinished(s[4..]);
      } else if n <= LONGEST && |s| >= 4 + n {
        RestIsUnfinished(s[4 + n..]);
      }
    }
  }

  class PeerStream {
    const buf: R.RingBuffer
    var canRecv: bool
    var delivered: seq<Bytes>  // what read_message was given
    ghost var stream: Bytes    // what came in

    ghost predicate Valid()
      reads this, buf, buf.d
    {
      && buf.Valid() && (buf.Size() == 0 || buf.Size() == BUFFER)
      && !Parse(stream).bad
      && delivered == Parse(stream).messages && buf.Contents() == Parse(stream).rest
    }

    constructor ()
      ensures Valid() && stream == [] && delivered == []
    {
      buf := new R.RingBuffer();
      canRecv, delivered, stream := false, [], [];
    }

    // The socket delivers any bytes, up to the size of the free window.
    method Recv() returns (err: bool, ghost got: Bytes)
      requires buf.Valid() && (buf.Size() == 0 || buf.Size() == BUFFER)
      modifies this`canRecv, buf, buf.d
      ensures buf.Valid() && (buf.Size() == 0 || buf.Size() == BUFFER)
      ensures buf.d == old(buf.d) || fresh(buf.d)
      ensures buf.Contents() == old(buf.Contents()) + got
      ensures old(canRecv) ==> buf.Size() == BUFFER
      ensures (canRecv ==> old(canRecv)) && (!err ==> !canRecv || buf.CbW() == 0)
    {
      hide R.RingBuffer.Contents, R.RingBuffer.Valid;
      err, got := false, [];
      if canRecv && buf.Size() == 0 {
        buf.NoRoom();
        buf.Resize(BUFFER);
      }
      ghost var before := buf.Contents();
      while canRecv && buf.CbW() != 0
        invariant buf.Valid() && (buf.Size() == 0 || buf.Size() == BUFFER)
        invariant buf.d == old(buf.d) || fresh(buf.d)
        invariant buf.Contents() == before + got
        invariant (old(canRecv) ==> buf.Size() == BUFFER) && (canRecv ==> old(canRecv))
        decreases buf.CbWrite(), canRecv
      {
        buf.Windows();
        var fails, blocks: bool := *, *;
        if fails {
          canRecv := canRecv && !blocks;
          return !blocks, got;
        }
        var s: Bytes := Chunk(buf.CbW());
        if s == [] {
          return true, got;
        }
        if |s| != buf.CbW() {
          canRecv := false;
        }
        buf.Fill(s);
        Arithmetic.ConcatIsAssociative(before, got, s);
        got := got + s;
      }
    }

    method Chunk(most: nat) returns (s: Bytes)
      ensures |s| <= most
    {
      s :| |s| <= most;
    }

    // Hands over the message of `n` bytes at the front, or drops a keep-alive.
    method Take(n: nat, ghost one: seq<Bytes>) returns (err: bool)
      requires buf.Valid() && buf.CbR() >= 4 + n && |buf.Contents()| >= 4 + n && Length(buf.Contents()) == n
      requires one == MessageOf(buf.Contents())
      modifies this`delivered, buf`r, buf`w
      ensures buf.Valid() && buf.Contents() == old(buf.Contents())[4 + n..]
      ensures delivered == old(delivered) + one
      ensures old(buf.CbR() == buf.CbRead()) ==> buf.CbR() == buf.CbRead()
    {
      buf.Windows();
      err := false;
      if n != 0 {
        var message := Front(n);
        assert [message] == one;
        delivered := delivered + [message];
        err := *;
      } else {
        assert delivered + [] == delivered;
      }
      buf.Skip(4 + n);
    }

    method Front(n: nat) returns (message: Bytes)
      requires buf.Valid() && buf.CbR() >= 4 + n
      ensures |buf.Contents()| >= 4 + n && message == buf.Contents()[4..4 + n]
    {
      buf.Peek(4, 4 + n);
      message := buf.d[buf.r + 4..buf.r + 4 + n];
    }

    // The length of the message at the front.
    method ReadLength() returns (n: nat)
      requires buf.Valid() && buf.CbR() >= 4
      ensures |buf.Contents()| >= 4 && n == Length(buf.Contents()) == Length(buf.Contents()[..4])
    {
      buf.Windows();
      var window := buf.d[buf.r..buf.REnd()];
      LengthIsBe(window[..4]);
      ShortIsPositive(window[..4]);
      n := ReadInt(4, window);
    }

    // One turn of the inner loop; `more` if a message or a keep-alive was taken.
    method DrainOne(ghost a: Bytes, ghost d0: seq<Bytes>, ghost ms0: seq<Bytes>, ghost left0: Bytes)
      returns (more: bool, err: bool, ghost ms: seq<Bytes>, ghost left: Bytes)
      requires buf.Valid() && left0 == buf.Contents() && Cut(a, ms0, left0) && delivered == d0 + ms0
      requires buf.CbR() >= 4
      modifies this`delivered, buf`r, buf`w
      ensures buf.Valid() && left == buf.Contents() && Cut(a, ms, left) && delivered == d0 + ms
      ensures more ==> |left| < |left0| && (old(buf.CbR() == buf.CbRead()) ==> buf.CbR() == buf.CbRead())
      ensures !more && !err ==> left == left0 && buf.CbR() == old(buf.CbR()) && buf.CbRead() == old(buf.CbRead())
      ensures !more && !err ==> |left| >= 4 && 0 < Length(left) <= LONGEST && buf.CbR() < 4 + Length(left)
      ensures err ==> !more && |left| <= |left0|
    {
      hide R.RingBuffer.Contents, Parse, Cut;
      more, err, ms, left := false, false, ms0, left0;
      var n := ReadLength();
      if n > LONGEST {
        err := true;
        return;
      }
      if n != 0 && buf.CbR() < 4 + n {
        return;
      }
      buf.Windows();
      ghost var one := MessageOf(left0);
      ms, left := CutMessage(a, ms0, left0, one);
      Arithmetic.ConcatIsAssociative(d0, ms0, one);
      assert Cut(a, ms, left);
      err := Take(n, one);
      more := !err;
    }

    // Delivers every message that is complete in the contiguous window.
    method DrainWindow(ghost a: Bytes, ghost d0: seq<Bytes>, ghost ms0: seq<Bytes>, ghost left0: Bytes)
      returns (err: bool, ghost ms: seq<Bytes>, ghost left: Bytes)
      requires buf.Valid() && left0 == buf.Contents() && Cut(a, ms0, left0) && delivered == d0 + ms0
      modifies this`delivered, buf`r, buf`w
      ensures buf.Valid() && left == buf.Contents() && Cut(a, ms, left) && delivered == d0 + ms
      ensures |left| <= |left0|
      ensures !err ==> (old(buf.CbR() == buf.CbRead()) ==> buf.CbR() == buf.CbRead())
      ensures !err && |left| == |left0| ==> buf.CbR() == old(buf.CbR()) && buf.CbRead() == old(buf.CbRead())
      ensures !err ==> 0 <= buf.CbR() <= |left| && Unfinished(left[..buf.CbR()])
    {
      err, ms, left := false, ms0, left0;
      var more := true;
      while more && buf.CbR() >= 4
        invariant buf.Valid() && left == buf.Contents() && Cut(a, ms, left) && delivered == d0 + ms && !err
        invariant |left| <= |left0|
        invariant old(buf.CbR() == buf.CbRead()) ==> buf.CbR() == buf.CbRead()
        invariant |left| == |left0| ==> buf.CbR() == old(buf.CbR()) && buf.CbRead() == old(buf.CbRead())
        invariant !more ==> |left| >= 4 && 0 < Length(left) <= LONGEST && buf.CbR() < 4 + Length(left)
        decreases |left|, more
      {
        more, err, ms, left := DrainOne(a, d0, ms, left);
        if err {
          return;
        }
      }
      WindowUnfinished();
    }

    lemma WindowUnfinished()
      requires buf.Valid()
      requires buf.CbR() >= 4 ==> |buf.Contents()| >= 4 && 0 < Length(buf.Contents()) <= LONGEST
      requires buf.CbR() >= 4 ==> buf.CbR() < 4 + Length(buf.Contents())
      ensures 0 <= buf.CbR() <= |buf.Contents()| && Unfinished(buf.Contents()[..buf.CbR()])
    {
      buf.Windows();
      var s := buf.Contents()[..buf.CbR()];
      if |s| >= 4 {
        assert Length(s) == Length(buf.Contents());
      }
    }

    // Cuts everything in the buffer into messages. A message that wraps around
    // the end of the buffer is made contiguous first.
    method Drain(ghost a: Bytes, ghost d0: seq<Bytes>) returns (err: bool, ghost ms: seq<Bytes>, ghost left: Bytes)
      requires buf.Valid() && delivered == d0 && buf.Contents() == a
      modifies this`delivered, buf`r, buf`w, buf.d
      ensures buf.Valid() && left == buf.Contents() && Cut(a, ms, left) && delivered == d0 + ms
      ensures !err ==> Unfinished(left)
    {
      CutNothing(a);
      err, ms, left := false, [], a;
      while true
        invariant buf.Valid() && left == buf.Contents() && Cut(a, ms, left) && delivered == d0 + ms
        decreases |left|, if buf.CbR() == buf.CbRead() then 0 else 1
      {
        err, ms, left := DrainWindow(a, d0, ms, left);
        if err {
          return;
        }
        buf.Windows();
        if buf.CbR() == buf.CbRead() {
          assert left[..buf.CbR()] == left;
          return;
        }
        buf.Combine();
      }
    }

    // Receives; what was delivered and what is in the buffer are the stream.
    method Receive() returns (err: bool, ghost got: Bytes)
      requires Valid()
      modifies this`canRecv, this`stream, buf, buf.d
      ensures buf.Valid() && (buf.Size() == 0 || buf.Size() == BUFFER) && (buf.d == old(buf.d) || fresh(buf.d))
      ensures stream == old(stream) + got && Cut(stream, delivered, buf.Contents())
    {
      err, got := Recv();
      ParseIsIncremental(stream, got);
      stream := stream + got;
    }

    // One round of post_select: receive, deliver, and release an empty buffer.
    // As long as the link lives, what was delivered is what the whole stream
    // parses as, however it came in, and there is room to receive more.
    method PostSelect() returns (err: bool, ghost got: Bytes)
      requires Valid()
      modifies this, buf, buf.d
      ensures stream == old(stream) + got
      ensures delivered <= Parse(stream).messages
      ensures !err ==> Valid() && (buf.Size() == 0 || (buf.Size() == 0x8400 && buf.CbW() > 0))
    {
      hide Parse, R.RingBuffer.Contents, R.RingBuffer.Valid;
      err, got := Receive();
      if err {
        return;
      }
      ghost var c, d0, ms, left := buf.Contents(), delivered, [], [];
      err, ms, left := Drain(c, d0);
      CutTwice(stream, d0, c, ms, left);
      if err {
        return;
      }
      buf.Windows();
      if buf.CbR() == 0 {
        buf.Resize(0);
      }
    }
  }
}
