/**
 * The few Python `str` operations the docstring parser relies on:
 * `sub in s`, `s.split(c)`, `sep.join(parts)` and `s.strip()`.
 * Strings are sequences of characters.
 */
module Text {

  /** `p` is a prefix of `s` (Python's `s.startswith(p)`). */
  predicate IsPrefix(p: string, s: string) {
    |p| <= |s| && s[..|p|] == p
  }

  /** Python's `sub in s`: `sub` occurs somewhere in `s` as a substring. */
  predicate Contains(s: string, sub: string) {
    exists i :: 0 <= i <= |s| - |sub| && OccursAt(s, sub, i)
  }

  /** `sub` occurs in `s` starting at position `i`. */
  predicate OccursAt(s: string, sub: string, i: nat)
    requires i + |sub| <= |s|
  {
    s[i..i + |sub|] == sub
  }

  /** Python's `sep.join(parts)`. */
  function Join(parts: seq<string>, sep: string): string {
    if |parts| == 0 then ""
    else if |parts| == 1 then parts[0]
    else parts[0] + sep + Join(parts[1..], sep)
  }

  /**
   * Python's `s.split(sep)` for a one-character separator: the pieces between
   * separators, always at least one (`"".split(c) == [""]`).
   */
  function Split(s: string, sep: char): (r: seq<string>)
    ensures |r| >= 1
  {
    if |s| == 0 then [""]
    else
      var rest := Split(s[1..], sep);
      if s[0] == sep then [""] + rest
      else [[s[0]] + rest[0]] + rest[1..]
  }

  /** No piece of a split holds the separator. */
  lemma {:induction false} SplitPiecesFree(s: string, sep: char)
    ensures forall k :: 0 <= k < |Split(s, sep)| ==> sep !in Split(s, sep)[k]
  {
    if |s| > 0 {
      SplitPiecesFree(s[1..], sep);
    }
  }

  /** Joining the pieces again with the separator gives back the original string. */
  lemma {:induction false} JoinSplit(s: string, sep: char)
    ensures Join(Split(s, sep), [sep]) == s
  {
    if |s| > 0 {
      var rest := Split(s[1..], sep);
      JoinSplit(s[1..], sep);
      if s[0] == sep {
        assert Split(s, sep) == [""] + rest;
        assert ([""] + rest)[1..] == rest;
        assert s == [sep] + s[1..];
      } else {
        var r := Split(s, sep);
        assert r == [[s[0]] + rest[0]] + rest[1..];
        if |rest| == 1 {
          assert s == [s[0]] + s[1..];
        } else {
          assert rest == [rest[0]] + rest[1..];
          assert r[1..] == rest[1..];
          assert Join(rest, [sep]) == rest[0] + [sep] + Join(rest[1..], [sep]);
          assert s == [s[0]] + s[1..];
        }
      }
    }
  }

  /** Splitting a string that starts with a separator-free piece `x`. */
  lemma {:induction false} SplitAfterPrefix(x: string, y: string, sep: char)
    requires sep !in x
    ensures Split(x + y, sep) == [x + Split(y, sep)[0]] + Split(y, sep)[1..]
  {
    if |x| > 0 {
      SplitAfterPrefix(x[1..], y, sep);
      assert (x + y)[1..] == x[1..] + y;
      assert [x[0]] + (x[1..] + Split(y, sep)[0]) == x + Split(y, sep)[0];
    } else {
      assert x + y == y;
      var r := Split(y, sep);
      assert r == [r[0]] + r[1..];
      assert x + r[0] == r[0];
    }
  }

  /**
   * The first piece of a split is `s[..i]` for the first separator position `i`
   * (or all of `s`); the remaining pieces are the split of what follows it.
   */
  lemma SplitAt(s: string, sep: char, i: nat)
    requires i <= |s| && sep !in s[..i]
    requires i == |s| || s[i] == sep
    ensures Split(s, sep)[0] == s[..i]
    ensures i == |s| ==> |Split(s, sep)| == 1
    ensures i < |s| ==> Split(s, sep)[1..] == Split(s[i + 1..], sep)
  {
    assert s == s[..i] + s[i..];
    SplitAfterPrefix(s[..i], s[i..], sep);
    if i < |s| {
      assert s[i..][1..] == s[i + 1..];
    }
  }

  /** The position of the first occurrence of `c` in `s`. */
  lemma {:induction false} FirstIndexOf(s: string, c: char) returns (i: nat)
    requires c in s
    ensures i < |s| && s[i] == c && c !in s[..i]
  {
    if s[0] == c {
      i := 0;
    } else {
      var j := FirstIndexOf(s[1..], c);
      i := j + 1;
      assert s[..i] == [s[0]] + s[1..][..j];
    }
  }

  /** Splitting a join of separator-free pieces gives back the pieces. */
  lemma {:induction false} SplitJoin(parts: seq<string>, sep: char)
    requires |parts| >= 1
    requires forall k :: 0 <= k < |parts| ==> sep !in parts[k]
    ensures Split(Join(parts, [sep]), sep) == parts
  {
    var s := Join(parts, [sep]);
    var x := parts[0];
    if |parts| == 1 {
      assert s[..|s|] == s == x;
      SplitAt(s, sep, |s|);
      assert Split(s, sep) == [x];
    } else {
      SplitJoin(parts[1..], sep);
      assert s == x + [sep] + Join(parts[1..], [sep]);
      assert s[..|x|] == x;
      assert s[|x| + 1..] == Join(parts[1..], [sep]);
      SplitAt(s, sep, |x|);
      assert parts == [x] + parts[1..];
    }
  }

  /** Python's `str.isspace()` for a single character. */
  predicate IsSpace(c: char) {
    var n := c as int;
    (9 <= n <= 13) || (28 <= n <= 32) || n == 0x85 || n == 0xA0 || n == 0x1680
    || (0x2000 <= n <= 0x200A) || n == 0x2028 || n == 0x2029 || n == 0x202F
    || n == 0x205F || n == 0x3000
  }

  predicate AllSpace(s: string) {
    forall k :: 0 <= k < |s| ==> IsSpace(s[k])
  }

  /** Number of whitespace characters at the start of `s`. */
  function LeadingSpaces(s: string): (n: nat)
    ensures n <= |s|
    ensures n < |s| ==> !IsSpace(s[n])
  {
    if |s| == 0 || !IsSpace(s[0]) then 0 else 1 + LeadingSpaces(s[1..])
  }

  /** Every character counted by `LeadingSpaces` is whitespace. */
  lemma {:induction false} LeadingSpacesAreSpace(s: string)
    ensures AllSpace(s[..LeadingSpaces(s)])
  {
    if |s| > 0 && IsSpace(s[0]) {
      var n := LeadingSpaces(s);
      LeadingSpacesAreSpace(s[1..]);
      assert s[..n] == [s[0]] + s[1..][..n - 1];
    }
  }

  /** Number of whitespace characters at the end of `s`. */
  function TrailingSpaces(s: string): (n: nat)
    ensures n <= |s|
    ensures n < |s| ==> !IsSpace(s[|s| - n - 1])
  {
    if |s| == 0 || !IsSpace(s[|s| - 1]) then 0 else 1 + TrailingSpaces(s[..|s| - 1])
  }

  /** Every character counted by `TrailingSpaces` is whitespace. */
  lemma {:induction false} TrailingSpacesAreSpace(s: string)
    ensures AllSpace(s[|s| - TrailingSpaces(s)..])
  {
    if |s| > 0 && IsSpace(s[|s| - 1]) {
      var t := s[..|s| - 1];
      var n := TrailingSpaces(s);
      TrailingSpacesAreSpace(t);
      assert s[|s| - n..] == t[|t| - (n - 1)..] + [s[|s| - 1]];
    }
  }

  /** Python's `s.strip()`: `s` without its leading and trailing whitespace. */
  function Strip(s: string): (r: string)
    ensures r == [] || (!IsSpace(r[0]) && !IsSpace(r[|r| - 1]))
  {
    var a := LeadingSpaces(s);
    var t := s[a..];
    t[..|t| - TrailingSpaces(t)]
  }

  /** The stripped string is a stretch of `s` flanked only by whitespace. */
  lemma StripSpec(s: string)
    ensures exists i ::
              0 <= i <= |s| - |Strip(s)| && s[i..i + |Strip(s)|] == Strip(s)
              && AllSpace(s[..i]) && AllSpace(s[i + |Strip(s)|..])
  {
    var a := LeadingSpaces(s);
    var t := s[a..];
    var b := |t| - TrailingSpaces(t);
    LeadingSpacesAreSpace(s);
    TrailingSpacesAreSpace(t);
    assert t[..b] == s[a..a + b];
    assert s[a + b..] == t[b..];
    assert 0 <= a <= |s| - |Strip(s)| && s[a..a + |Strip(s)|] == Strip(s)
      && AllSpace(s[..a]) && AllSpace(s[a + |Strip(s)|..]);
  }
}
