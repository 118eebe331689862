/**
 * Python's `textwrap.dedent`, taken line by line: lines made only of spaces and
 * tabs become empty, and the longest run of leading spaces and tabs common to
 * all other lines (the margin) is removed from each of them.
 */
module TextWrap {
  import opened Common
  import opened Text

  /** `textwrap` counts only spaces and tabs as indentation. */
  predicate IsIndentChar(c: char) {
    c == ' ' || c == '\t'
  }

  /** A line that is empty or made only of spaces and tabs. */
  predicate IsBlank(line: string) {
    forall k :: 0 <= k < |line| ==> IsIndentChar(line[k])
  }

  /** The leading spaces and tabs of a line. */
  function Indent(line: string): (r: string)
    ensures IsPrefix(r, line)
    ensures forall k :: 0 <= k < |r| ==> IsIndentChar(r[k])
    ensures |r| == |line| || !IsIndentChar(line[|r|])
  {
    if |line| == 0 || !IsIndentChar(line[0]) then ""
    else [line[0]] + Indent(line[1..])
  }

  /** The longest common prefix of two strings. */
  function CommonPrefix(a: string, b: string): (r: string)
    ensures IsPrefix(r, a) && IsPrefix(r, b)
    ensures |r| == |a| || |r| == |b| || a[|r|] != b[|r|]
  {
    if |a| == 0 || |b| == 0 || a[0] != b[0] then ""
    else [a[0]] + CommonPrefix(a[1..], b[1..])
  }

  /** One step of the margin computation over a line, in the order of the lines. */
  function MarginStep(margin: Option<string>, line: string): Option<string> {
    if IsBlank(line) then margin
    else match margin
      case None => Some(Indent(line))
      case Some(m) => Some(CommonPrefix(m, Indent(line)))
  }

  /**
   * The margin of the lines: absent when every line is blank, otherwise a
   * prefix of the indentation of every non-blank line.
   */
  function MarginOf(lines: seq<string>): (r: Option<string>)
    ensures r.None? <==> forall k :: 0 <= k < |lines| ==> IsBlank(lines[k])
    ensures r.Some? ==> forall k :: 0 <= k < |lines| && !IsBlank(lines[k]) ==> IsPrefix(r.value, Indent(lines[k]))
  {
    if |lines| == 0 then None
    else
      var init := lines[..|lines| - 1];
      assert forall k :: 0 <= k < |init| ==> init[k] == lines[k];
      MarginStep(MarginOf(init), lines[|lines| - 1])
  }

  /** Any common prefix of two strings is a prefix of their longest common prefix. */
  lemma CommonPrefixIsLongest(a: string, b: string, p: string)
    requires IsPrefix(p, a) && IsPrefix(p, b)
    ensures IsPrefix(p, CommonPrefix(a, b))
  {
    assert forall i :: 0 <= i < |p| ==> a[i] == p[i] == b[i];
  }

  /** The margin is the LONGEST common indentation: any common one is a prefix of it. */
  lemma {:induction false} MarginIsLongest(lines: seq<string>, p: string)
    requires MarginOf(lines).Some?
    requires forall k :: 0 <= k < |lines| && !IsBlank(lines[k]) ==> IsPrefix(p, Indent(lines[k]))
    ensures IsPrefix(p, MarginOf(lines).value)
  {
    var init := lines[..|lines| - 1];
    var last := lines[|lines| - 1];
    assert MarginOf(lines) == MarginStep(MarginOf(init), last);
    if IsBlank(last) {
      assert forall k :: 0 <= k < |init| ==> init[k] == lines[k];
      MarginIsLongest(init, p);
    } else {
      assert IsPrefix(p, Indent(last));
      if MarginOf(init).Some? {
        assert forall k :: 0 <= k < |init| ==> init[k] == lines[k];
        MarginIsLongest(init, p);
        CommonPrefixIsLongest(MarginOf(init).value, Indent(last), p);
      }
    }
  }

  /** The margin that `dedent` removes: empty when there is none. */
  function Margin(lines: seq<string>): (m: string)
    ensures forall k :: 0 <= k < |lines| && !IsBlank(lines[k]) ==> IsPrefix(m, lines[k])
  {
    match MarginOf(lines)
    case None => ""
    case Some(m) => m
  }

  /**
   * `textwrap.dedent` on the lines of a text: blank lines become empty and
   * every other line loses the margin, and nothing else.
   */
  function DedentLines(lines: seq<string>): (r: seq<string>)
    ensures |r| == |lines|
    ensures forall k :: 0 <= k < |lines| ==>
      if IsBlank(lines[k]) then r[k] == "" else Margin(lines) + r[k] == lines[k]
  {
    var m := Margin(lines);
    seq(|lines|, k requires 0 <= k < |lines| => if IsBlank(lines[k]) then "" else lines[k][|m|..])
  }

  /** `textwrap.dedent(text)`. */
  function Dedent(text: string): string {
    Join(DedentLines(Split(text, '\n')), "\n")
  }

  /** The lines of the dedented text are the dedented lines of the text. */
  lemma DedentSplit(text: string)
    ensures Split(Dedent(text), '\n') == DedentLines(Split(text, '\n'))
  {
    var lines := Split(text, '\n');
    var r := DedentLines(lines);
    SplitPiecesFree(text, '\n');
    forall k | 0 <= k < |r|
      ensures '\n' !in r[k]
    {
      if !IsBlank(lines[k]) {
        assert r[k] == lines[k][|Margin(lines)|..];
      }
    }
    SplitJoin(r, '\n');
  }

  /** `textwrap.dedent` applied twice gives the same text as applied once. */
  lemma DedentTextIdempotent(text: string)
    ensures Dedent(Dedent(text)) == Dedent(text)
  {
    DedentSplit(text);
    DedentIdempotent(Split(text, '\n'));
  }

  /** Indentation after a removed prefix of it. */
  lemma IndentAfter(line: string, m: string)
    requires IsPrefix(m, Indent(line))
    ensures Indent(line) == m + Indent(line[|m|..])
    decreases |m|
  {
    if |m| > 0 {
      IndentAfter(line[1..], m[1..]);
      assert line[1..][|m| - 1..] == line[|m|..];
    }
  }

  /** Removing part of the indentation of a non-blank line leaves it non-blank. */
  lemma DropIndentKeepsText(line: string, m: string)
    requires IsPrefix(m, Indent(line)) && !IsBlank(line)
    ensures !IsBlank(line[|m|..])
  {
    var j :| 0 <= j < |line| && !IsIndentChar(line[j]);
    assert j >= |Indent(line)|;
    assert line[|m|..][j - |m|] == line[j];
  }

  /** A dedented non-blank line stays non-blank and keeps its indentation beyond the margin. */
  lemma DedentedLine(lines: seq<string>, k: nat)
    requires k < |lines| && !IsBlank(lines[k])
    ensures !IsBlank(DedentLines(lines)[k])
    ensures Indent(lines[k]) == Margin(lines) + Indent(DedentLines(lines)[k])
  {
    var m := Margin(lines);
    var line := lines[k];
    assert IsPrefix(m, Indent(line)) by {
      assert MarginOf(lines).Some?;
    }
    assert DedentLines(lines)[k] == line[|m|..];
    IndentAfter(line, m);
    DropIndentKeepsText(line, m);
  }

  /** The margin of an already dedented block is empty. */
  lemma DedentedMarginEmpty(lines: seq<string>)
    ensures Margin(DedentLines(lines)) == ""
  {
    var r := DedentLines(lines);
    var m := Margin(lines);
    if MarginOf(r).Some? {
      var m2 := MarginOf(r).value;
      forall k | 0 <= k < |lines| && !IsBlank(lines[k])
        ensures IsPrefix(m + m2, Indent(lines[k]))
      {
        DedentedLine(lines, k);
        assert IsPrefix(m2, Indent(r[k]));
      }
      MarginIsLongest(lines, m + m2);
    }
  }

  /** Dedenting twice is the same as dedenting once. */
  lemma DedentIdempotent(lines: seq<string>)
    ensures DedentLines(DedentLines(lines)) == DedentLines(lines)
  {
    var r := DedentLines(lines);
    DedentedMarginEmpty(lines);
    var r2 := DedentLines(r);
    forall k | 0 <= k < |r| ensures r2[k] == r[k] {
      if !IsBlank(r[k]) {
        assert "" + r2[k] == r[k];
      } else if !IsBlank(lines[k]) {
        DedentedLine(lines, k);
      }
    }
  }
}
