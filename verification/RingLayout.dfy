/** The byte layout shared by every view of the variable-length ring of
    hooks/common/ringbuffer.h: wrapping positions and length-prefixed frames. */
module RingLayout {

  newtype byte = b: int | 0 <= b < 256

  const LENGTH_LIMIT: nat := 0x1_0000_0000

  // ---- frames: [uint32 len][len bytes], little-endian ----

  function EncodeLength(n: nat): (r: seq<byte>)
    requires n < LENGTH_LIMIT
    ensures |r| == 4
  {
    var n1 := n / 256;
    var n2 := n1 / 256;
    [(n % 256) as byte, (n1 % 256) as byte, (n2 % 256) as byte, (n2 / 256) as byte]
  }

  function DecodeLength(s: seq<byte>): (n: nat)
    requires |s| == 4
    ensures n < LENGTH_LIMIT
  {
    s[0] as nat + 256 * (s[1] as nat + 256 * (s[2] as nat + 256 * s[3] as nat))
  }

  lemma LengthRoundTrip(n: nat)
    requires n < LENGTH_LIMIT
    ensures DecodeLength(EncodeLength(n)) == n
  {}

  predicate IsRecord(r: seq<byte>) {
    |r| < LENGTH_LIMIT
  }

  function Frame(r: seq<byte>): (f: seq<byte>)
    requires IsRecord(r)
    ensures |f| == 4 + |r|
  {
    EncodeLength(|r|) + r
  }

  ghost predicate AllRecords(q: seq<seq<byte>>) {
    forall i :: 0 <= i < |q| ==> IsRecord(q[i])
  }

  /** What a queue of records looks like in the ring. */
  function Frames(q: seq<seq<byte>>): seq<byte>
    requires AllRecords(q)
  {
    if q == [] then [] else Frame(q[0]) + Frames(q[1..])
  }

  lemma {:induction false} FramesSnoc(q: seq<seq<byte>>, r: seq<byte>)
    requires AllRecords(q) && IsRecord(r)
    ensures AllRecords(q + [r]) && Frames(q + [r]) == Frames(q) + Frame(r)
  {
    if q == [] {
      assert q + [r] == [r];
      assert Frames([r]) == Frame(r) + Frames([]);
    } else {
      FramesSnoc(q[1..], r);
      assert (q + [r])[1..] == q[1..] + [r];
      assert (q + [r])[0] == q[0];
    }
  }

  lemma FramesEmpty(q: seq<seq<byte>>)
    requires AllRecords(q)
    ensures Frames(q) == [] <==> q == []
  {}

  // ---- wrapping positions ----

  function At(buf: seq<byte>, pos: nat): byte
    requires |buf| > 0
  {
    buf[pos % |buf|]
  }

  /** The n bytes from position pos on, wrapping at the end of the buffer. */
  function Window(buf: seq<byte>, pos: nat, n: nat): (r: seq<byte>)
    requires |buf| > 0
    ensures |r| == n && forall k :: 0 <= k < n ==> r[k] == At(buf, pos + k)
  {
    seq(n, k requires 0 <= k < n => At(buf, pos + k))
  }

  lemma ModDistinct(cap: nat, a: nat, b: nat)
    requires cap > 0 && a < b < a + cap
    ensures a % cap != b % cap
  {
    if a % cap == b % cap {
      var q, q', r := a / cap, b / cap, a % cap;
      assert a == q * cap + r && b == q' * cap + r;
      assert b - a == (q' - q) * cap;
      if q' <= q { NonPositive(q' - q, cap); } else { AtLeast(q' - q, cap); }
    }
  }

  lemma NonPositive(k: int, cap: nat)
    requires k <= 0
    ensures k * cap <= 0
  {}

  lemma AtLeast(k: int, cap: nat)
    requires k >= 1
    ensures k * cap >= cap
  {}

  /** A write outside a window leaves it alone. */
  lemma WindowUntouched(buf: seq<byte>, pos: nat, n: nat, p: nat, x: byte)
    requires |buf| > 0 && pos + n <= p < pos + |buf|
    ensures Window(buf[p % |buf| := x], pos, n) == Window(buf, pos, n)
  {
    hide At;
    var buf' := buf[p % |buf| := x];
    forall k | 0 <= k < n ensures Window(buf', pos, n)[k] == Window(buf, pos, n)[k] {
      AtUntouched(buf, pos + k, p, x);
    }
  }

  lemma AtUntouched(buf: seq<byte>, pos: nat, p: nat, x: byte)
    requires |buf| > 0 && pos < p < pos + |buf|
    ensures At(buf[p % |buf| := x], pos) == At(buf, pos)
  {
    ModDistinct(|buf|, pos, p);
  }

  lemma AtUntouchedAbove(buf: seq<byte>, p: nat, pos: nat, x: byte)
    requires |buf| > 0 && p < pos < p + |buf|
    ensures At(buf[p % |buf| := x], pos) == At(buf, pos)
  {
    ModDistinct(|buf|, p, pos);
  }

  lemma AtWritten(buf: seq<byte>, p: nat, x: byte)
    requires |buf| > 0
    ensures At(buf[p % |buf| := x], p) == x
  {}

  lemma WindowSplit(buf: seq<byte>, pos: nat, m: nat, n: nat)
    requires |buf| > 0 && m <= n
    ensures Window(buf, pos, n) == Window(buf, pos, m) + Window(buf, pos + m, n - m)
  {
    hide At;
    var r := Window(buf, pos, m) + Window(buf, pos + m, n - m);
    forall k | 0 <= k < n ensures Window(buf, pos, n)[k] == r[k] {
      assert pos + k == (pos + m) + (k - m);
    }
  }

  /** The oldest record as it lies in the window of a queue. */
  lemma WindowHead(buf: seq<byte>, pos: nat, q: seq<seq<byte>>)
    requires |buf| > 0 && AllRecords(q) && q != [] && Window(buf, pos, |Frames(q)|) == Frames(q)
    ensures 4 + |q[0]| <= |Frames(q)|
    ensures Window(buf, pos, 4) == EncodeLength(|q[0]|) && Window(buf, pos + 4, |q[0]|) == q[0]
    ensures Window(buf, pos + 4 + |q[0]|, |Frames(q[1..])|) == Frames(q[1..])
  {
    hide Window, At, EncodeLength;
    var f, rest, n := Frame(q[0]), Frames(q[1..]), |Frames(q)|;
    assert Frames(q) == f + rest;
    hide Frames;
    WindowSplit(buf, pos, |f|, n);
    WindowSplit(buf, pos, 4, |f|);
    assert Window(buf, pos, |f|) == Frames(q)[..|f|] == f;
    assert Window(buf, pos + |f|, n - |f|) == Frames(q)[|f|..] == rest;
    assert Window(buf, pos, 4) == f[..4] && Window(buf, pos + 4, |q[0]|) == f[4..];
  }
}
