/**
 * Masking of disabled syntax in the source counter: masked bytes become spaces, newlines stay, so
 * every remaining line keeps its number.
 */
module SourceMask {
  import opened Basics

  const NEWLINE: Byte := 10
  const SPACE: Byte := 32

  /** A masked stretch, from its first byte to just after its last. */
  type Span = (nat, nat)

  function Blanked(b: Byte): Byte {
    if b == NEWLINE then NEWLINE else SPACE
  }

  predicate Covers(span: Span, k: nat) { span.0 <= k < span.1 }

  ghost predicate Hidden(spans: seq<Span>, k: nat) {
    exists i :: 0 <= i < |spans| && Covers(spans[i], k)
  }

  /** The source with everything hidden by some stretch blanked, in whatever order they come. */
  ghost function Masked(source: seq<Byte>, spans: seq<Span>): seq<Byte> {
    seq(|source|, k requires 0 <= k < |source| => if Hidden(spans, k) then Blanked(source[k]) else source[k])
  }

  /** Overwrites one stretch of the mask from the source, in place. */
  method Mask(masked: array<Byte>, source: seq<Byte>, span: Span)
    requires masked.Length == |source| && span.0 <= span.1 <= |source|
    modifies masked
    ensures forall k :: 0 <= k < |source| ==> masked[k] == if Covers(span, k) then Blanked(source[k]) else old(masked[k])
  {
    for k := span.0 to span.1
      invariant forall j :: 0 <= j < |source| ==>
        masked[j] == if span.0 <= j < k then Blanked(source[j]) else old(masked[j])
    {
      masked[k] := Blanked(source[k]);
    }
  }

  /** Overlapping and nested stretches blank exactly their union. */
  method MaskAll(source: seq<Byte>, spans: seq<Span>) returns (masked: array<Byte>)
    requires forall i :: 0 <= i < |spans| ==> spans[i].0 <= spans[i].1 <= |source|
    ensures fresh(masked) && masked[..] == Masked(source, spans)
  {
    masked := new Byte[|source|](k requires 0 <= k < |source| => source[k]);
    for i := 0 to |spans|
      invariant masked.Length == |source|
      invariant forall k :: 0 <= k < |source| ==>
        masked[k] == if Hidden(spans[..i], k) then Blanked(source[k]) else source[k]
    {
      Mask(masked, source, spans[i]);
      forall k: nat | k < |source|
        ensures Hidden(spans[..i + 1], k) <==> Hidden(spans[..i], k) || Covers(spans[i], k)
      {
        HiddenNext(spans, i, k);
      }
    }
    assert spans[..|spans|] == spans;
  }

  /** Byte by byte: inside some stretch only newlines stay and the rest are spaces; outside nothing changes. */
  lemma MaskedMeaning(source: seq<Byte>, spans: seq<Span>, k: nat)
    requires k < |source|
    ensures |Masked(source, spans)| == |source|
    ensures Masked(source, spans)[k] ==
      if source[k] == 10 || (forall span :: span in spans ==> k < span.0 || span.1 <= k) then source[k] else 32
  {
    if Hidden(spans, k) {
      var i :| 0 <= i < |spans| && Covers(spans[i], k);
      assert spans[i] in spans;
    }
  }

  lemma HiddenNext(spans: seq<Span>, i: nat, k: nat)
    requires i < |spans|
    ensures Hidden(spans[..i + 1], k) <==> Hidden(spans[..i], k) || Covers(spans[i], k)
  {
    var next := spans[..i + 1];
    if Hidden(spans[..i], k) {
      var j :| 0 <= j < i && Covers(spans[..i][j], k);
      assert Covers(next[j], k);
    }
    if Covers(spans[i], k) {
      assert Covers(next[i], k);
    }
  }

  // ----- Line numbers -----

  /** The number of the line position `k` is on. */
  function LineOf(s: seq<Byte>, k: nat): nat
    requires k <= |s|
  {
    if k == 0 then 0 else LineOf(s, k - 1) + if s[k - 1] == NEWLINE then 1 else 0
  }

  lemma {:induction false} LinesKept(source: seq<Byte>, spans: seq<Span>, k: nat)
    requires k <= |source|
    ensures LineOf(Masked(source, spans), k) == LineOf(source, k)
  {
    if k > 0 {
      LinesKept(source, spans, k - 1);
    }
  }

  /** A line counts when it has a byte that is not blank; spaces and newlines are blank. */
  ghost predicate CodeLine(s: seq<Byte>, blank: Byte -> bool, line: nat) {
    exists k :: 0 <= k < |s| && !blank(s[k]) && LineOf(s, k) == line
  }

  /** After masking, exactly the lines with a visible byte of code count, under their old numbers. */
  lemma MaskedLines(source: seq<Byte>, spans: seq<Span>, blank: Byte -> bool, line: nat)
    requires blank(SPACE) && blank(NEWLINE)
    ensures CodeLine(Masked(source, spans), blank, line)
      <==> exists k :: 0 <= k < |source| && !Hidden(spans, k) && !blank(source[k]) && LineOf(source, k) == line
  {
    var masked := Masked(source, spans);
    if CodeLine(masked, blank, line) {
      var k :| 0 <= k < |masked| && !blank(masked[k]) && LineOf(masked, k) == line;
      LinesKept(source, spans, k);
      assert !Hidden(spans, k);
    }
    if k :| 0 <= k < |source| && !Hidden(spans, k) && !blank(source[k]) && LineOf(source, k) == line {
      LinesKept(source, spans, k);
      assert !blank(masked[k]) && LineOf(masked, k) == line;
    }
  }

  lemma MaskedConcat(source: seq<Byte>, a: seq<Span>, b: seq<Span>)
    ensures Masked(Masked(source, a), b) == Masked(source, a + b)
  {
    forall k: nat | k < |source|
      ensures Hidden(a + b, k) <==> Hidden(a, k) || Hidden(b, k)
    {
      if Hidden(a, k) {
        var i :| 0 <= i < |a| && Covers(a[i], k);
        assert Covers((a + b)[i], k);
      }
      if Hidden(b, k) {
        var i :| 0 <= i < |b| && Covers(b[i], k);
        assert Covers((a + b)[|a| + i], k);
      }
    }
  }

  /**
   The counted lines of a file: disabled syntax is blanked, then the comments and documentation
   strings found in what is left. Exactly the lines with a byte in neither count, under their
   numbers in the original.
   */
  lemma CountedLines(source: seq<Byte>, disabled: seq<Span>, documentation: seq<Span>, blank: Byte -> bool, line: nat)
    requires blank(SPACE) && blank(NEWLINE)
    ensures CodeLine(Masked(Masked(source, disabled), documentation), blank, line)
      <==> exists k :: 0 <= k < |source| && !Hidden(disabled + documentation, k) && !blank(source[k]) && LineOf(source, k) == line
  {
    MaskedConcat(source, disabled, documentation);
    MaskedLines(source, disabled + documentation, blank, line);
  }
}
