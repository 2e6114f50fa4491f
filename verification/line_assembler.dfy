/** The newline-delimited line assembler of the RS-485 receive loop.

    Bytes arrive one at a time. Carriage returns are dropped; a line feed, or any
    byte that arrives while the buffer is full, ends the line. The line is handed
    on, and the buffer is cleared for the next one. `n` is the buffer size
    LINE_BUF_SIZE, which comes from a board header that is not part of this model. */
module LineAssembler {
  import opened Text

  /** Buffer sizes for which the 16-bit length counter cannot wrap. */
  predicate ValidSize(n: nat)
  {
    1 <= n <= 0x1_0001
  }

  /** The most bytes a line can hold: LINE_BUF_SIZE - 2, or none at all when the
      buffer has a single slot. */
  function Capacity(n: nat): nat
  {
    if n >= 2 then n - 2 else 0
  }

  /** The receive buffer `rs485_msg` and its fill count `rs485_len`. */
  datatype LineBuffer = LineBuffer(msg: seq<Byte>, len: nat)
  {
    /** The bytes stored so far. */
    function Content(): seq<Byte>
      requires len <= |msg|
    {
      msg[..len]
    }
  }

  /** The buffer invariant: `n` slots, never more than `Capacity(n)` stored bytes (so
      every store and the terminator land inside the buffer), zeros past the stored
      bytes, and no carriage return or line feed among them. */
  predicate Valid(n: nat, b: LineBuffer)
  {
    && |b.msg| == n
    && b.len <= Capacity(n)
    && b.len < n
    && (forall k | b.len <= k < |b.msg| :: b.msg[k] == NUL)
    && CR !in b.msg[..b.len] && LF !in b.msg[..b.len]
  }

  /** The buffer after `memset` and `rs485_len = 0`. */
  function Cleared(n: nat): (b: LineBuffer)
    requires ValidSize(n)
    ensures Valid(n, b)
    ensures b.Content() == []
  {
    LineBuffer(seq(n, _ => NUL), 0)
  }

  /** The outcome of one received byte: the next buffer, and the line it ended, if any. */
  datatype Step = Step(next: LineBuffer, line: Option<seq<Byte>>)

  /** Handles one received byte. */
  function Feed(n: nat, b: LineBuffer, x: Byte): (s: Step)
    requires ValidSize(n) && Valid(n, b)
    ensures Valid(n, s.next)
    ensures x == CR ==> s == Step(b, None)
    ensures x != CR && (x == LF || b.len >= Capacity(n)) ==> s.line == Some(b.Content()) && s.next == Cleared(n)
    ensures x != CR && x != LF && b.len < Capacity(n) ==> s.line == None && s.next.Content() == b.Content() + [x]
  {
    if x == CR then Step(b, None)
    else if x == LF || b.len as int >= n - 2 then
      var terminated := b.msg[b.len := NUL];
      Step(Cleared(n), Some(terminated[..b.len]))
    else
      var next := LineBuffer(b.msg[b.len := x], b.len + 1);
      assert next.Content() == b.Content() + [x];
      Step(next, None)
  }

  /** The lines a byte stream ends, in order, and the buffer it leaves behind. */
  datatype Outcome = Outcome(lines: seq<seq<Byte>>, final: LineBuffer)

  /** Feeds a whole byte stream, one byte at a time. */
  function Run(n: nat, b: LineBuffer, xs: seq<Byte>): (o: Outcome)
    requires ValidSize(n) && Valid(n, b)
    ensures Valid(n, o.final)
    ensures |o.lines| <= |xs|
    ensures forall l | l in o.lines :: |l| <= Capacity(n) && CR !in l && LF !in l
    decreases |xs|
  {
    if xs == [] then Outcome([], b)
    else
      var s := Feed(n, b, xs[0]);
      var rest := Run(n, s.next, xs[1..]);
      match s.line
      case None => rest
      case Some(l) =>
        assert CR !in l && LF !in l by {
          assert l == b.Content();
        }
        Outcome([l] + rest.lines, rest.final)
  }

  /** A stream with its carriage returns removed. */
  function DropCR(xs: seq<Byte>): (r: seq<Byte>)
    ensures CR !in r
    ensures forall x | x in r :: x in xs
  {
    if xs == [] then []
    else if xs[0] == CR then DropCR(xs[1..])
    else [xs[0]] + DropCR(xs[1..])
  }

  /** Position of the first line feed. */
  function FirstLF(s: seq<Byte>): (i: nat)
    requires LF in s
    ensures i < |s| && s[i] == LF
    ensures LF !in s[..i]
  {
    if s[0] == LF then 0 else 1 + FirstLF(s[1..])
  }

  /** A byte string cut at every line feed: the complete lines, then the unfinished
      tail (possibly empty). This is the reference the assembler is checked against. */
  function Segments(s: seq<Byte>): (r: seq<seq<Byte>>)
    ensures |r| >= 1
    decreases |s|
  {
    if LF !in s then [s]
    else
      var i := FirstLF(s);
      [s[..i]] + Segments(s[i + 1..])
  }

  /** Segments only hold bytes of the string they were cut from. */
  lemma {:induction false} SegmentBytes(s: seq<Byte>, k: nat, x: Byte)
    requires k < |Segments(s)| && x in Segments(s)[k]
    ensures x in s
    decreases |s|
  {
    if LF in s {
      var i := FirstLF(s);
      if k > 0 {
        SegmentBytes(s[i + 1..], k - 1, x);
      }
    }
  }

  /** Every segment fits in the buffer. */
  predicate Fits(n: nat, s: seq<Byte>)
    decreases |s|
  {
    if LF !in s then |s| <= Capacity(n)
    else FirstLF(s) <= Capacity(n) && Fits(n, s[FirstLF(s) + 1..])
  }

  /** Each segment of a string that fits a buffer of size `m` fits that buffer. */
  lemma {:induction false} FitsAll(m: nat, s: seq<Byte>, k: nat)
    requires Fits(m, s) && k < |Segments(s)|
    ensures |Segments(s)[k]| <= Capacity(m)
    decreases |s|
  {
    if LF in s {
      var i := FirstLF(s);
      if k > 0 {
        FitsAll(m, s[i + 1..], k - 1);
      }
    }
  }

  /** Carriage returns make no difference to what the assembler does. */
  lemma {:induction false} RunIgnoresCR(n: nat, b: LineBuffer, xs: seq<Byte>)
    requires ValidSize(n) && Valid(n, b)
    ensures Run(n, b, xs) == Run(n, b, DropCR(xs))
    decreases |xs|
  {
    if xs != [] {
      var s := Feed(n, b, xs[0]);
      RunIgnoresCR(n, s.next, xs[1..]);
      if xs[0] != CR {
        var d := DropCR(xs);
        assert d[0] == xs[0] && d[1..] == DropCR(xs[1..]);
      }
    }
  }

  /** Cutting a line-feed-free prefix off a string does not split its first segment:
      that segment is at least as long as the prefix. */
  lemma FirstSegmentCovers(p: seq<Byte>, r: seq<Byte>)
    requires LF !in p
    ensures |Segments(p + r)[0]| >= |p|
  {
    var s := p + r;
    if LF in s {
      var i := FirstLF(s);
    }
  }

  /** A line-feed-free prefix followed by a line feed is the first segment. */
  lemma SegmentsAtLF(p: seq<Byte>, r: seq<Byte>)
    requires LF !in p
    ensures Segments(p + [LF] + r) == [p] + Segments(r)
  {
    var s := p + [LF] + r;
    var i := FirstLF(s);
    assert s[|p|] == LF;
    assert s[..i] <= p by {
      assert forall k | 0 <= k < i && k < |p| :: s[..i][k] == p[k];
    }
    assert i == |p|;
    assert s[..i] == p;
    assert s[i + 1..] == r;
  }

  /** After a line feed that ends a fitting line, the rest of the stream fits too. */
  lemma FitsAfterLF(n: nat, c: seq<Byte>, r: seq<Byte>)
    requires LF !in c
    requires Fits(n, c + [LF] + r)
    ensures Segments(c + [LF] + r) == [c] + Segments(r)
    ensures Fits(n, r)
  {
    SegmentsAtLF(c, r);
    var s := c + [LF] + r;
    assert FirstLF(s) == |c| && s[|c| + 1..] == r;
  }

  /** In a fitting stream, a byte that is not a line feed never meets a full buffer. */
  lemma FitsLeavesRoom(n: nat, c: seq<Byte>, x: Byte, r: seq<Byte>)
    requires LF !in c && x != LF
    requires Fits(n, c + [x] + r)
    ensures |c| < Capacity(n)
  {
    FirstSegmentCovers(c + [x], r);
  }

  /** A line feed ends the stored line and restarts from a cleared buffer. */
  lemma RunAtLF(n: nat, b: LineBuffer, xs: seq<Byte>, restSegments: seq<seq<Byte>>)
    requires ValidSize(n) && Valid(n, b)
    requires xs != [] && xs[0] == LF
    requires Run(n, Cleared(n), xs[1..]).lines + [Run(n, Cleared(n), xs[1..]).final.Content()] == restSegments
    ensures Run(n, b, xs).lines + [Run(n, b, xs).final.Content()] == [b.Content()] + restSegments
  {
    var rest := Run(n, Cleared(n), xs[1..]);
    assert Run(n, b, xs) == Outcome([b.Content()] + rest.lines, rest.final);
    assert ([b.Content()] + rest.lines) + [rest.final.Content()] == [b.Content()] + (rest.lines + [rest.final.Content()]);
  }

  /** An ordinary byte meeting a buffer with room is stored, and nothing is emitted. */
  lemma RunAtByte(n: nat, b: LineBuffer, xs: seq<Byte>)
    requires ValidSize(n) && Valid(n, b)
    requires xs != [] && xs[0] != LF && xs[0] != CR && b.len < Capacity(n)
    ensures Run(n, b, xs) == Run(n, Feed(n, b, xs[0]).next, xs[1..])
  {
  }

  /** When no line of the stream overflows the buffer, the assembler ends exactly the
      newline-terminated segments of the stream (after what the buffer already held)
      and keeps the unfinished tail in the buffer. */
  lemma {:induction false} RunSplitsAtNewlines(n: nat, b: LineBuffer, xs: seq<Byte>)
    requires ValidSize(n) && Valid(n, b)
    requires CR !in xs
    requires Fits(n, b.Content() + xs)
    ensures Run(n, b, xs).lines + [Run(n, b, xs).final.Content()] == Segments(b.Content() + xs)
    decreases |xs|, 1
  {
    if xs == [] {
      assert b.Content() + xs == b.Content();
      assert LF !in b.Content();
    } else if xs[0] == LF {
      SplitsAtLF(n, b, xs);
    } else {
      SplitsAtByte(n, b, xs);
    }
  }

  /** The induction step of `RunSplitsAtNewlines` for a line feed. */
  lemma {:induction false} SplitsAtLF(n: nat, b: LineBuffer, xs: seq<Byte>)
    requires ValidSize(n) && Valid(n, b)
    requires CR !in xs && xs != [] && xs[0] == LF
    requires Fits(n, b.Content() + xs)
    ensures Run(n, b, xs).lines + [Run(n, b, xs).final.Content()] == Segments(b.Content() + xs)
    decreases |xs|, 0
  {
    var c, r := b.Content(), xs[1..];
    assert Segments(c + xs) == [c] + Segments(r) && Fits(n, r) by {
      assert LF !in c;
      assert c + xs == c + [LF] + r;
      FitsAfterLF(n, c, r);
    }
    assert Cleared(n).Content() + r == r;
    RunSplitsAtNewlines(n, Cleared(n), r);
    RunAtLF(n, b, xs, Segments(r));
  }

  /** The induction step of `RunSplitsAtNewlines` for any other byte. */
  lemma {:induction false} SplitsAtByte(n: nat, b: LineBuffer, xs: seq<Byte>)
    requires ValidSize(n) && Valid(n, b)
    requires CR !in xs && xs != [] && xs[0] != LF
    requires Fits(n, b.Content() + xs)
    ensures Run(n, b, xs).lines + [Run(n, b, xs).final.Content()] == Segments(b.Content() + xs)
    decreases |xs|, 0
  {
    var c, x, r := b.Content(), xs[0], xs[1..];
    assert LF !in c;
    assert c + xs == c + [x] + r;
    FitsLeavesRoom(n, c, x, r);
    var next := Feed(n, b, x).next;
    assert next.Content() + r == c + xs;
    RunSplitsAtNewlines(n, next, r);
    RunAtByte(n, b, xs);
  }

  /** From a cleared buffer, a stream whose lines all fit is split exactly at its line
      feeds, carriage returns removed. */
  lemma StreamLines(n: nat, xs: seq<Byte>)
    requires ValidSize(n)
    requires Fits(n, DropCR(xs))
    ensures Run(n, Cleared(n), xs).lines + [Run(n, Cleared(n), xs).final.Content()] == Segments(DropCR(xs))
  {
    RunIgnoresCR(n, Cleared(n), xs);
    assert Cleared(n).Content() + DropCR(xs) == DropCR(xs);
    RunSplitsAtNewlines(n, Cleared(n), DropCR(xs));
  }
}
