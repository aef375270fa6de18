/** Byte positions, spans and the `SourceFile` line table (src/source_map.rs).

    The text of a source file is modelled as its sequence of bytes; every
    position is a byte offset into it. */
module SourceMap {
  import opened Prelude

  /** One byte of the UTF-8 text buffer. */
  type Byte = b: int | 0 <= b < 256

  /** The byte `b'\n'`. */
  const NEWLINE: Byte := 10

  /** A byte offset into a source file's text buffer (Rust `BytePos(usize)`). */
  datatype BytePos = BytePos(n: nat) {

    /** `Pos::to_usize`: the offset the position wraps. */
    function ToUsize(): (r: nat)
      ensures BytePos(r) == this
    {
      n
    }

    /** `impl Sub for BytePos`. Rust's `usize` subtraction panics on underflow,
        so callers must subtract a position no larger than this one. */
    function Sub(rhs: BytePos): (r: BytePos)
      requires rhs.n <= n
      ensures r.n + rhs.n == n
      ensures r.n <= n
    {
      BytePos(n - rhs.n)
    }

    /** `impl Add for BytePos`: the sum lies beyond both summands. */
    function Add(rhs: BytePos): (r: BytePos)
      ensures n <= r.n && rhs.n <= r.n
    {
      BytePos(n + rhs.n)
    }
  }

  /** Subtracting either summand from a sum gives back the other. */
  lemma AddSubInverse(a: BytePos, b: BytePos)
    ensures a.Add(b).Sub(b) == a
    ensures a.Add(b).Sub(a) == b
  {
  }

  /** `Pos::from_usize`: the inverse of `ToUsize`. */
  function FromUsize(value: nat): (p: BytePos)
    ensures p.ToUsize() == value
  {
    BytePos(value)
  }

  lemma PosRoundTrip(p: BytePos)
    ensures FromUsize(p.ToUsize()) == p
  {
  }

  /** A half-open range `[start, end)` of the text buffer. */
  datatype Span = Span(start: BytePos, end: BytePos)

  const DUMMY_BPOS: BytePos := BytePos(0)

  /** The span of synthetic words that have no place in the text. */
  const DUMMY_SPAN: Span := Span(DUMMY_BPOS, DUMMY_BPOS)

  lemma DummySpanIsEmptyAtZero()
    ensures DUMMY_SPAN.start.n == 0 && DUMMY_SPAN.end.n == 0
  {
  }

  /** A 1-based line number and a byte column relative to the line's start. */
  datatype Loc = Loc(line: nat, col: BytePos)

  /** The positions just after every newline among the first `k` bytes of
      `src`, in increasing order: the middle of the line table that
      `SourceFile::new` builds. */
  function NewlineEnds(src: seq<Byte>, k: nat): (r: seq<BytePos>)
    requires k <= |src|
    ensures forall j :: 0 <= j < |r| ==> 1 <= r[j].n <= k && src[r[j].n - 1] == NEWLINE
    ensures forall i, j :: 0 <= i < j < |r| ==> r[i].n < r[j].n
    decreases k
  {
    if k == 0 then []
    else NewlineEnds(src, k - 1) + (if src[k - 1] == NEWLINE then [BytePos(k)] else [])
  }

  /** The table `SourceFile::new` stores: 0, the position after each newline,
      and a final sentinel equal to the text's length. */
  function LineTable(src: seq<Byte>): (lines: seq<BytePos>)
    ensures |lines| >= 2
    ensures lines[0] == BytePos(0) && lines[|lines| - 1] == BytePos(|src|)
    ensures forall j :: 0 <= j < |lines| ==> lines[j].n <= |src|
  {
    [BytePos(0)] + NewlineEnds(src, |src|) + [BytePos(|src|)]
  }

  /** Every newline among the first `k` bytes has its successor position in
      `NewlineEnds(src, k)`. */
  lemma {:induction false} NewlineEndsComplete(src: seq<Byte>, k: nat, i: nat)
    requires i < k <= |src| && src[i] == NEWLINE
    ensures BytePos(i + 1) in NewlineEnds(src, k)
    decreases k
  {
    var ends := NewlineEnds(src, k - 1);
    var last: seq<BytePos> := if src[k - 1] == NEWLINE then [BytePos(k)] else [];
    assert NewlineEnds(src, k) == ends + last;
    if i + 1 < k {
      NewlineEndsComplete(src, k - 1, i);
      assert BytePos(i + 1) in ends;
    } else {
      assert last == [BytePos(i + 1)];
    }
  }

  /** There is one entry per newline byte. */
  lemma {:induction false} NewlineEndsCount(src: seq<Byte>, k: nat)
    requires k <= |src|
    ensures |NewlineEnds(src, k)| == multiset(src[..k])[NEWLINE]
    decreases k
  {
    if k > 0 {
      NewlineEndsCount(src, k - 1);
      assert src[..k] == src[..k - 1] + [src[k - 1]];
    }
  }

  /** The entries for the first `k` bytes are a prefix of those for the first
      `m` bytes, and the later entries all lie beyond `k`. */
  lemma {:induction false} NewlineEndsPrefix(src: seq<Byte>, k: nat, m: nat)
    requires k <= m <= |src|
    ensures |NewlineEnds(src, k)| <= |NewlineEnds(src, m)|
    ensures NewlineEnds(src, m)[..|NewlineEnds(src, k)|] == NewlineEnds(src, k)
    ensures forall j :: |NewlineEnds(src, k)| <= j < |NewlineEnds(src, m)| ==> NewlineEnds(src, m)[j].n > k
    decreases m - k
  {
    if k < m {
      NewlineEndsPrefix(src, k, m - 1);
    }
  }

  /** The line table is sorted: entries never decrease. */
  lemma LineTableSorted(src: seq<Byte>)
    ensures var lines := LineTable(src);
      forall i, j :: 0 <= i <= j < |lines| ==> lines[i].n <= lines[j].n
  {
    var lines := LineTable(src);
    var middle := NewlineEnds(src, |src|);
    forall i, j | 0 <= i <= j < |lines|
      ensures lines[i].n <= lines[j].n
    {
      if 0 < i && j < |lines| - 1 {
        assert lines[i] == middle[i - 1] && lines[j] == middle[j - 1];
      }
    }
  }

  /** Every entry between the first and the sentinel follows a newline. */
  lemma InnerEntriesFollowNewlines(src: seq<Byte>)
    ensures var lines := LineTable(src);
      forall j :: 0 < j < |lines| - 1 ==> src[lines[j].n - 1] == NEWLINE
  {
    var lines := LineTable(src);
    var middle := NewlineEnds(src, |src|);
    forall j | 0 < j < |lines| - 1
      ensures src[lines[j].n - 1] == NEWLINE
    {
      assert lines[j] == middle[j - 1];
    }
  }

  /** The line table of `SourceFile::new`: it starts at 0, ends at the text's
      length, is sorted, stays within the text and holds exactly the position
      after each newline in between, so it has two more entries than the text
      has newlines. */
  lemma LineTableShape(src: seq<Byte>)
    ensures var lines := LineTable(src);
      && |lines| == multiset(src)[NEWLINE] + 2
      && lines[0] == BytePos(0)
      && lines[|lines| - 1] == BytePos(|src|)
      && (forall i, j :: 0 <= i <= j < |lines| ==> lines[i].n <= lines[j].n)
      && (forall j :: 0 <= j < |lines| ==> lines[j].n <= |src|)
      && (forall j :: 0 < j < |lines| - 1 ==> src[lines[j].n - 1] == NEWLINE)
      && (forall i :: 0 <= i < |src| && src[i] == NEWLINE ==> BytePos(i + 1) in lines[1..|lines| - 1])
  {
    var lines := LineTable(src);
    var middle := NewlineEnds(src, |src|);
    NewlineEndsCount(src, |src|);
    assert src[..|src|] == src;
    LineTableSorted(src);
    assert lines[1..|lines| - 1] == middle;
    InnerEntriesFollowNewlines(src);
    forall i | 0 <= i < |src| && src[i] == NEWLINE
      ensures BytePos(i + 1) in lines[1..|lines| - 1]
    {
      NewlineEndsComplete(src, |src|, i);
    }
  }

  /** The start of the line holding position `p`: the largest `q <= p` that is
      0 or follows a newline. */
  function LineStart(src: seq<Byte>, p: nat): (q: nat)
    requires p <= |src|
    ensures q <= p
    ensures q == 0 || src[q - 1] == NEWLINE
    ensures forall k :: q <= k < p ==> src[k] != NEWLINE
    decreases p
  {
    if p == 0 || src[p - 1] == NEWLINE then p else LineStart(src, p - 1)
  }

  /** The last newline end at or before `p` is the start of `p`'s line. */
  lemma {:induction false} LastNewlineEndIsLineStart(src: seq<Byte>, p: nat)
    requires p <= |src|
    ensures var ends := NewlineEnds(src, p);
      (if ends == [] then 0 else ends[|ends| - 1].n) == LineStart(src, p)
    decreases p
  {
    if p > 0 && src[p - 1] != NEWLINE {
      LastNewlineEndIsLineStart(src, p - 1);
    }
  }

  /** The first index at or after `i` whose entry lies beyond `pos`, or
      `|lines|` when there is none. */
  function FirstAbove(lines: seq<BytePos>, pos: nat, i: nat): (j: nat)
    requires i <= |lines|
    ensures i <= j <= |lines|
    ensures forall k :: i <= k < j ==> lines[k].n <= pos
    ensures j < |lines| ==> pos < lines[j].n
    decreases |lines| - i
  {
    if i == |lines| then i
    else if pos < lines[i].n then i
    else FirstAbove(lines, pos, i + 1)
  }

  /** A source file's text and its precomputed line table. Neither changes
      after construction. */
  class SourceFile {
    /** The file's content, as bytes. */
    const src: seq<Byte>
    /** Byte positions following every newline, between 0 and a final
        sentinel at the end of the text. */
    const lines: seq<BytePos>

    ghost predicate Valid() {
      lines == LineTable(src)
    }

    /** `SourceFile::new`: one pass over the bytes records the position after
        each newline. */
    constructor (src: seq<Byte>)
      ensures this.src == src
      ensures Valid()
    {
      var lines := [BytePos(0)];
      for i := 0 to |src|
        invariant lines == [BytePos(0)] + NewlineEnds(src, i)
      {
        if src[i] == NEWLINE {
          lines := lines + [BytePos(i + 1)];
        }
      }
      lines := lines + [BytePos(|src|)];
      this.src := src;
      this.lines := lines;
    }

    /** `span_to_snippet`: the bytes the span covers. Rust indexes the
        `String` with the span, so an out-of-range span panics; callers must
        pass one inside the text. */
    function SpanToSnippet(s: Span): (r: seq<Byte>)
      requires s.start.n <= s.end.n <= |src|
      ensures |r| == s.end.n - s.start.n
      ensures forall k :: 0 <= k < |r| ==> r[k] == src[s.start.n + k]
    {
      src[s.start.n..s.end.n]
    }

    /** The line index of `pos`, as `lookup_line_index` computes it: one less
        than the first line-table index whose entry lies beyond `pos`. */
    function LineIndex(pos: BytePos): (r: Option<nat>)
      requires Valid()
      ensures r.None? <==> pos.n >= |src|
      ensures r.Some? ==> r.value + 1 < |lines|
      ensures r.Some? ==> forall k :: 0 <= k <= r.value ==> lines[k].n <= pos.n
      ensures r.Some? ==> pos.n < lines[r.value + 1].n
    {
      var j := FirstAbove(lines, pos.n, 0);
      if j == |lines| then None else Some(j - 1)
    }

    /** `lookup_line_index`: a linear search with an early return. The
        subtraction `i - 1` cannot underflow because the first entry is 0. */
    method LookupLineIndex(pos: BytePos) returns (r: Option<nat>)
      requires Valid()
      ensures r == LineIndex(pos)
    {
      var posIndex := pos.ToUsize();
      for i := 0 to |lines|
        invariant forall k :: 0 <= k < i ==> lines[k].n <= posIndex
      {
        var linePosIndex := lines[i].ToUsize();
        if posIndex < linePosIndex {
          return Some(i - 1);
        }
      }
      return None;
    }

    /** `lookup_source_location`: the 1-based line and the byte column of
        `pos`, or None where `lookup_line_index` finds no line. */
    function LookupSourceLocation(pos: BytePos): (r: Option<Loc>)
      requires Valid()
      ensures r.None? <==> pos.n >= |src|
      ensures r.Some? ==> 1 <= r.value.line < |lines|
      ensures r.Some? ==> lines[r.value.line - 1].n + r.value.col.n == pos.n
      ensures r.Some? ==> LineIndex(pos).Some? && r.value.line == LineIndex(pos).value + 1
    {
      match LineIndex(pos)
      case None => None
      case Some(lineIndex) =>
        var line := lineIndex + 1;
        var col := pos.Sub(lines[lineIndex]);
        Some(Loc(line, col))
    }
  }

  /** Adjacent snippets concatenate to the snippet of the joined span. */
  lemma SnippetsConcatenate(f: SourceFile, a: BytePos, b: BytePos, c: BytePos)
    requires a.n <= b.n <= c.n <= |f.src|
    ensures f.SpanToSnippet(Span(a, b)) + f.SpanToSnippet(Span(b, c)) == f.SpanToSnippet(Span(a, c))
  {
    assert f.src[a.n..b.n] + f.src[b.n..c.n] == f.src[a.n..c.n];
  }

  /** `LineIndex` is determined by the entries around `pos`. */
  lemma LineIndexIs(f: SourceFile, pos: BytePos, idx: nat)
    requires f.Valid()
    requires idx + 1 < |f.lines|
    requires forall k :: 0 <= k <= idx ==> f.lines[k].n <= pos.n
    requires pos.n < f.lines[idx + 1].n
    ensures f.LineIndex(pos) == Some(idx)
  {
  }

  /** For a position inside the text, the line is one more than the number of
      newlines before it and the column is its distance from the start of its
      line. */
  lemma LocationIsLineAndColumn(f: SourceFile, pos: BytePos)
    requires f.Valid()
    requires pos.n < |f.src|
    ensures f.LookupSourceLocation(pos)
         == Some(Loc(1 + multiset(f.src[..pos.n])[NEWLINE], BytePos(pos.n - LineStart(f.src, pos.n))))
  {
    var src, lines := f.src, f.lines;
    var before := NewlineEnds(src, pos.n);
    var all := NewlineEnds(src, |src|);
    NewlineEndsPrefix(src, pos.n, |src|);
    var idx := |before|;
    assert lines == [BytePos(0)] + all + [BytePos(|src|)];
    assert lines[0].n == 0;
    forall k | 0 < k <= idx
      ensures lines[k].n <= pos.n
    {
      assert lines[k] == all[k - 1] == before[k - 1];
    }
    assert pos.n < lines[idx + 1].n by {
      if idx < |all| {
        assert lines[idx + 1] == all[idx];
      }
    }
    LineIndexIs(f, pos, idx);
    NewlineEndsCount(src, pos.n);
    LastNewlineEndIsLineStart(src, pos.n);
    if idx > 0 {
      assert lines[idx] == all[idx - 1] == before[idx - 1];
    }
  }
}
