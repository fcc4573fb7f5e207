/** rb_bytes_t of hooks/common/ringbuffer.h as one object: the operations run one at a time.
    What interleaved producer and consumer steps do is RingProtocol's subject. */
module ByteRing {
  import opened RingLayout

  predicate PowerOfTwo(c: nat) {
    c == 1 || (c > 0 && c % 2 == 0 && PowerOfTwo(c / 2))
  }

  /** The least power of two that is at least cap. */
  method RoundUp(cap: nat) returns (c: nat)
    ensures PowerOfTwo(c) && c >= cap && (c == 1 || c / 2 < cap)
  {
    c := 1;
    while c < cap
      invariant PowerOfTwo(c) && (c == 1 || c / 2 < cap)
      decreases cap - c
    {
      c := c * 2;
    }
  }

  /** src written from position pos on, wrapping at the end. */
  function Written(buf: seq<byte>, pos: nat, src: seq<byte>): (r: seq<byte>)
    requires |buf| > 0
    ensures |r| == |buf|
  {
    if src == [] then buf
    else
      var n := |src| - 1;
      Written(buf, pos, src[..n])[(pos + n) % |buf| := src[n]]
  }

  lemma {:induction false} WrittenConcat(buf: seq<byte>, pos: nat, a: seq<byte>, b: seq<byte>)
    requires |buf| > 0
    ensures Written(Written(buf, pos, a), pos + |a|, b) == Written(buf, pos, a + b)
  {
    if b == [] {
      assert a + b == a;
    } else {
      var n := |b| - 1;
      WrittenConcat(buf, pos, a, b[..n]);
      assert (a + b)[..|a| + n] == a + b[..n];
    }
  }

  /** What was written is what the window shows. */
  lemma {:induction false} WrittenWindow(buf: seq<byte>, pos: nat, src: seq<byte>)
    requires 0 < |buf| && |src| <= |buf|
    ensures Window(Written(buf, pos, src), pos, |src|) == src
  {
    if src != [] {
      var n := |src| - 1;
      var before := Written(buf, pos, src[..n]);
      WrittenWindow(buf, pos, src[..n]);
      WindowUntouched(before, pos, n, pos + n, src[n]);
      WindowSplit(Written(buf, pos, src), pos, n, |src|);
      AtWritten(before, pos + n, src[n]);
      assert Window(Written(buf, pos, src), pos + n, 1) == [src[n]];
    }
  }

  /** A write past a window, and not wrapping into it, leaves it alone. */
  lemma {:induction false} WrittenUntouched(buf: seq<byte>, pos: nat, src: seq<byte>, p: nat, n: nat)
    requires 0 < |buf| && p + n <= pos && pos + |src| <= p + |buf|
    ensures Window(Written(buf, pos, src), p, n) == Window(buf, p, n)
  {
    if src != [] {
      var m := |src| - 1;
      WrittenUntouched(buf, pos, src[..m], p, n);
      WindowUntouched(Written(buf, pos, src[..m]), p, n, pos + m, src[m]);
    }
  }

  lemma WrapOffset(pos: nat, k: nat, cap: nat)
    requires cap > 0 && k < cap
    ensures (pos + k) % cap == if pos % cap + k < cap then pos % cap + k else pos % cap + k - cap
  {
    var q, r := pos / cap, pos % cap;
    assert pos == q * cap + r;
    if r + k < cap {
      ModUnique(pos + k, q, r + k, cap);
    } else {
      assert (q + 1) * cap == q * cap + cap;
      ModUnique(pos + k, q + 1, r + k - cap, cap);
    }
  }

  lemma ModUnique(x: nat, q: nat, r: nat, cap: nat)
    requires cap > 0 && r < cap && x == q * cap + r
    ensures x % cap == r
  {
    var q', r' := x / cap, x % cap;
    assert x == q' * cap + r';
    assert (q - q') * cap == r' - r && (q' - q) * cap == r - r';
    if q > q' { AtLeast(q - q', cap); }
    if q < q' { AtLeast(q' - q, cap); }
  }

  /** A window is one slice of the buffer, or a slice up to the end and one from the start. */
  lemma WindowSlices(buf: seq<byte>, pos: nat, n: nat)
    requires 0 < |buf| && n <= |buf|
    ensures var off := pos % |buf|;
      Window(buf, pos, n) == if n <= |buf| - off then buf[off..off+n] else buf[off..] + buf[..n - (|buf| - off)]
  {
    var off := pos % |buf|;
    var r := if n <= |buf| - off then buf[off..off+n] else buf[off..] + buf[..n - (|buf| - off)];
    forall k | 0 <= k < n ensures Window(buf, pos, n)[k] == r[k] {
      WrapOffset(pos, k, |buf|);
    }
  }

  /** Appending a frame behind the queue's window. */
  lemma PushWindow(was: seq<byte>, head: nat, tail: nat, queue: seq<seq<byte>>, data: seq<byte>, now: seq<byte>)
    requires |was| > 0 && AllRecords(queue) && IsRecord(data) && tail == head + |Frames(queue)|
    requires tail + 4 + |data| <= head + |was| && Window(was, head, |Frames(queue)|) == Frames(queue)
    requires now == Written(Written(was, tail, EncodeLength(|data|)), tail + 4, data)
    ensures AllRecords(queue + [data]) && |Frames(queue + [data])| == |Frames(queue)| + 4 + |data|
    ensures Window(now, head, |Frames(queue + [data])|) == Frames(queue + [data])
  {
    hide Window, Written;
    var n := |Frames(queue)|;
    WrittenConcat(was, tail, EncodeLength(|data|), data);
    WrittenUntouched(was, tail, Frame(data), head, n);
    WrittenWindow(was, tail, Frame(data));
    WindowSplit(now, head, n, n + 4 + |data|);
    FramesSnoc(queue, data);
  }

  class ByteRing {
    const buf: array<byte>
    var head: nat
    var tail: nat
    ghost var queue: seq<seq<byte>>

    ghost predicate Valid()
      reads this, buf
    {
      && buf.Length > 0 && PowerOfTwo(buf.Length) && AllRecords(queue)
      && tail == head + |Frames(queue)| && tail <= head + buf.Length
      && Window(buf[..], head, |Frames(queue)|) == Frames(queue)
    }

    constructor (cap: nat)
      ensures Valid() && fresh(buf) && queue == []
      ensures buf.Length >= cap && (buf.Length == 1 || buf.Length / 2 < cap)
    {
      var c := RoundUp(cap);
      buf := new byte[c](_ => 0);
      head, tail, queue := 0, 0, [];
    }

    /** memcpy(buf + at, src, |src|) */
    method CopyIn(at: nat, src: seq<byte>, ghost pos: nat)
      requires buf.Length > 0 && at + |src| <= buf.Length
      requires forall k :: 0 <= k < |src| ==> Lands(pos, k, at)
      modifies buf
      ensures buf[..] == Written(old(buf[..]), pos, src)
    {
      for k := 0 to |src|
        invariant buf[..] == Written(old(buf[..]), pos, src[..k])
      {
        assert src[..k+1][..k] == src[..k] && Lands(pos, k, at);
        buf[at + k] := src[k];
      }
      assert src[..|src|] == src;
    }

    /** Byte k of a copy starting at offset `at` is at position pos + k of the ring. */
    ghost predicate Lands(pos: nat, k: nat, at: nat)
    {
      buf.Length > 0 && (pos + k) % buf.Length == at + k
    }

    /** _rb_bytes_in: at most two copies, the second from the start of the buffer. */
    method BytesIn(pos: nat, src: seq<byte>)
      requires buf.Length > 0 && |src| <= buf.Length
      modifies buf
      ensures buf[..] == Written(old(buf[..]), pos, src)
    {
      var cap, n := buf.Length, |src|;
      var off := pos % cap;
      var first := cap - off;
      forall k | 0 <= k < n && k < first ensures Lands(pos, k, off) { WrapOffset(pos, k, cap); }
      if first >= n {
        CopyIn(off, src, pos);
      } else {
        CopyIn(off, src[..first], pos);
        ghost var next := pos + first;
        forall k | 0 <= k < n - first ensures Lands(next, k, 0) { WrapOffset(pos, first + k, cap); }
        CopyIn(0, src[first..], next);
        WrittenConcat(old(buf[..]), pos, src[..first], src[first..]);
        assert src[..first] + src[first..] == src;
      }
    }

    /** memcpy(dst, buf + at, n) */
    method CopyOut(at: nat, n: nat) returns (dst: seq<byte>)
      requires at + n <= buf.Length
      ensures dst == buf[at..at+n]
    {
      dst := [];
      for k := 0 to n
        invariant dst == buf[at..at+k]
      {
        dst := dst + [buf[at + k]];
      }
    }

    /** _rb_bytes_out */
    method BytesOut(pos: nat, n: nat) returns (dst: seq<byte>)
      requires buf.Length > 0 && n <= buf.Length
      ensures dst == Window(buf[..], pos, n)
    {
      var cap := buf.Length;
      var off := pos % cap;
      var first := cap - off;
      WindowSlices(buf[..], pos, n);
      if first >= n {
        dst := CopyOut(off, n);
      } else {
        var a := CopyOut(off, first);
        var b := CopyOut(0, n - first);
        dst := a + b;
      }
    }

    /** rb_bytes_push: accepted exactly when the frame fits now. */
    method Push(data: seq<byte>) returns (ok: bool)
      requires Valid() && IsRecord(data)
      modifies this, buf
      ensures Valid()
      ensures ok <==> 4 + |data| <= buf.Length - (old(tail) - old(head))
      ensures queue == if ok then old(queue) + [data] else old(queue)
      ensures head == old(head) && tail == old(tail) + (if ok then 4 + |data| else 0)
    {
      var need := 4 + |data|;
      if buf.Length - (tail - head) < need {
        return false;
      }
      hide Window, Written;
      ghost var was := buf[..];
      BytesIn(tail, EncodeLength(|data|));
      BytesIn(tail + 4, data);
      PushWindow(was, head, tail, queue, data, buf[..]);
      tail := tail + need;
      queue := queue + [data];
      ok := true;
    }

    /** rb_bytes_peek_len: the length of the oldest record, -1 when there is none. */
    method PeekLen() returns (len: int)
      requires Valid()
      ensures len == if queue == [] then -1 else |queue[0]|
    {
      FramesEmpty(queue);
      if head >= tail {
        return -1;
      }
      WindowHead(buf[..], head, queue);
      var prefix := BytesOut(head, 4);
      LengthRoundTrip(|queue[0]|);
      len := DecodeLength(prefix);
    }

    /** rb_bytes_pop: hands out the oldest record and releases its space. */
    method Pop(len: nat) returns (dst: seq<byte>)
      requires Valid() && queue != [] && len == |queue[0]|
      modifies this
      ensures Valid()
      ensures dst == old(queue)[0] && queue == old(queue)[1..]
      ensures tail == old(tail) && head == old(head) + 4 + len
    {
      WindowHead(buf[..], head, queue);
      dst := BytesOut(head + 4, len);
      head := head + 4 + len;
      assert Frames(queue) == Frame(queue[0]) + Frames(queue[1..]);
      queue := queue[1..];
    }

    method Empty() returns (e: bool)
      requires Valid()
      ensures e <==> queue == []
    {
      FramesEmpty(queue);
      e := head >= tail;
    }
  }
}
