/** getOffsets: from a parser position to an offset into the document text. */
module OffsetIndex {
  import opened Common
  import opened JavaText
  import opened Syntax

  /** The characters taken by the first n lines, each with its '\n'. */
  function PrefixLength(sizes: seq<nat>, n: nat): (r: nat)
    requires n <= |sizes|
    ensures r >= n
  {
    if n == 0 then 0 else sizes[0] + 1 + PrefixLength(sizes[1..], n - 1)
  }

  /**
   * The offset of a 1-based (line, column). The source adds up lineSizes
   * for every line before `line`; that fails when it reaches past the end
   * of lineSizes, which is None here.
   */
  function LineOffset(sizes: seq<nat>, line: int, column: int): (r: Option<int>)
    ensures r.None? <==> line > |sizes| + 1
  {
    if line - 1 > |sizes| then None
    else Some(PrefixLength(sizes, if line >= 1 then line - 1 else 0) + column - 1)
  }

  /** getOffsets: the start and end offsets of a node's span. */
  function SpanOffsets(sizes: seq<nat>, span: Span): (r: Option<(int, int)>)
    ensures r.Some? <==> span.beginLine <= |sizes| + 1 && span.endLine <= |sizes| + 1
    ensures r.Some? ==> Some(r.value.0) == LineOffset(sizes, span.beginLine, span.beginColumn)
    ensures r.Some? ==> Some(r.value.1) == LineOffset(sizes, span.endLine, span.endColumn)
  {
    match LineOffset(sizes, span.beginLine, span.beginColumn)
    case None => None
    case Some(start) =>
      match LineOffset(sizes, span.endLine, span.endColumn)
      case None => None
      case Some(end) => Some((start, end))
  }

  /** Adding one more line adds its length and its newline. */
  lemma {:induction false} PrefixLengthStep(sizes: seq<nat>, n: nat)
    requires n < |sizes|
    ensures PrefixLength(sizes, n + 1) == PrefixLength(sizes, n) + sizes[n] + 1
  {
    if n > 0 {
      PrefixLengthStep(sizes[1..], n - 1);
    }
  }

  lemma {:induction false} PrefixLengthMonotone(sizes: seq<nat>, m: nat, n: nat)
    requires m <= n <= |sizes|
    ensures PrefixLength(sizes, m) + (n - m) <= PrefixLength(sizes, n)
  {
    if m < n {
      PrefixLengthMonotone(sizes, m, n - 1);
      PrefixLengthStep(sizes, n - 1);
    }
  }

  /** PrefixLength(sizes, n) reads only the first n sizes. */
  lemma {:induction false} PrefixLengthOfPrefix(a: seq<nat>, b: seq<nat>, n: nat)
    requires n <= |a| && n <= |b| && a[..n] == b[..n]
    ensures PrefixLength(a, n) == PrefixLength(b, n)
  {
    if n > 0 {
      assert a[0] == a[..n][0] == b[..n][0] == b[0];
      assert a[1..][..n - 1] == a[..n][1..] == b[..n][1..] == b[1..][..n - 1];
      PrefixLengthOfPrefix(a[1..], b[1..], n - 1);
    }
  }

  /**
   * The offset index is strictly monotonic: while every column lies on its
   * line (at most one past its last character, the newline), a
   * lexicographically later position has a strictly larger offset.
   */
  lemma OffsetStrictlyMonotone(sizes: seq<nat>, line1: int, column1: int, line2: int, column2: int)
    requires 1 <= line1 <= |sizes| && 1 <= column1 <= sizes[line1 - 1] + 1
    requires 1 <= line2 <= |sizes| + 1 && 1 <= column2
    requires line1 < line2 || (line1 == line2 && column1 < column2)
    ensures LineOffset(sizes, line1, column1).Some? && LineOffset(sizes, line2, column2).Some?
    ensures LineOffset(sizes, line1, column1).value < LineOffset(sizes, line2, column2).value
  {
    if line1 < line2 {
      PrefixLengthStep(sizes, line1 - 1);
      PrefixLengthMonotone(sizes, line1, line2 - 1);
    }
  }

  /** Piece i of Segments(s) starts at PrefixLength(.., i) in s. */
  lemma {:induction false} SegmentsAt(s: string, i: nat, j: nat)
    requires i < |Segments(s)| && j < |Segments(s)[i]|
    ensures PrefixLength(Lengths(Segments(s)), i) + j < |s|
    ensures s[PrefixLength(Lengths(Segments(s)), i) + j] == Segments(s)[i][j]
    decreases |s|, 1
  {
    if s[0] == '\n' {
      SegmentsAtNewline(s, i, j);
    } else {
      SegmentsAtCharacter(s, i, j);
    }
  }

  /** A text starting with a newline: its first piece is empty. */
  lemma {:induction false} SegmentsAtNewline(s: string, i: nat, j: nat)
    requires |s| > 0 && s[0] == '\n'
    requires i < |Segments(s)| && j < |Segments(s)[i]|
    ensures PrefixLength(Lengths(Segments(s)), i) + j < |s|
    ensures s[PrefixLength(Lengths(Segments(s)), i) + j] == Segments(s)[i][j]
    decreases |s|, 0
  {
    var segs := Segments(s);
    var rest := Segments(s[1..]);
    assert segs == [""] + rest;
    assert Lengths(segs)[1..] == Lengths(rest);
    SegmentsAt(s[1..], i - 1, j);
  }

  /** A text starting with another character: it opens the first piece. */
  lemma {:induction false} SegmentsAtCharacter(s: string, i: nat, j: nat)
    requires |s| > 0 && s[0] != '\n'
    requires i < |Segments(s)| && j < |Segments(s)[i]|
    ensures PrefixLength(Lengths(Segments(s)), i) + j < |s|
    ensures s[PrefixLength(Lengths(Segments(s)), i) + j] == Segments(s)[i][j]
    decreases |s|, 0
  {
    var segs := Segments(s);
    var rest := Segments(s[1..]);
    assert segs == [[s[0]] + rest[0]] + rest[1..];
    if i == 0 {
      if j > 0 {
        SegmentsAt(s[1..], 0, j - 1);
      }
    } else {
      assert Lengths(segs)[1..] == Lengths(rest)[1..];
      SegmentsAt(s[1..], i, j);
    }
  }

  /**
   * With lineSizes taken from the text as the source builds it (the lengths
   * of text.split("\n")), the offset of line L, column C is the index of the
   * C-th character of the L-th line in the text.
   */
  lemma OffsetIndexesText(text: string, line: int, column: int)
    requires 1 <= line <= |JavaSplit(text)| && 1 <= column <= |JavaSplit(text)[line - 1]|
    ensures LineOffset(Lengths(JavaSplit(text)), line, column).Some?
    ensures var o := LineOffset(Lengths(JavaSplit(text)), line, column).value;
      0 <= o < |text| && text[o] == JavaSplit(text)[line - 1][column - 1]
  {
    var parts, segs := JavaSplit(text), Segments(text);
    assert Lengths(parts)[..line - 1] == Lengths(segs)[..line - 1];
    PrefixLengthOfPrefix(Lengths(parts), Lengths(segs), line - 1);
    SegmentsAt(text, line - 1, column - 1);
  }
}
