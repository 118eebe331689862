/**
 * The docstring parser of dsargparse (`_checker` and `_parse_doc`): a
 * docstring gives a headline, a description and a map from argument names
 * to their help texts.
 */
module Docstring {
  import opened Common
  import opened Text
  import opened TextWrap

  /** The keyword that opens the section describing the arguments. */
  const ArgsKeywords: seq<string> := ["Args:"]
  /** The keywords that open any other section. */
  const OtherKeywords: seq<string> := ["Returns:", "Raises:", "Yields:"]
  const Keywords: seq<string> := ArgsKeywords + OtherKeywords

  /** The test built by `_checker(keywords)`: no keyword occurs anywhere in `v`. */
  predicate NoKeyword(keywords: seq<string>, v: string) {
    forall k :: 0 <= k < |keywords| ==> !Contains(v, keywords[k])
  }

  /** The loop of the checker, stopping at the first keyword found in `v`. */
  method Checker(keywords: seq<string>, v: string) returns (ok: bool)
    ensures ok <==> forall k :: 0 <= k < |keywords| ==> !Contains(v, keywords[k])
  {
    for i := 0 to |keywords|
      invariant forall k :: 0 <= k < i ==> !Contains(v, keywords[k])
    {
      if Contains(v, keywords[i]) {
        return false;
      }
    }
    return true;
  }

  /** Number of leading lines that pass `NoKeyword(keywords, _)`. */
  function CleanPrefixLength(keywords: seq<string>, lines: seq<string>): (n: nat)
    ensures n <= |lines|
    ensures forall k :: 0 <= k < n ==> NoKeyword(keywords, lines[k])
    ensures n < |lines| ==> !NoKeyword(keywords, lines[n])
  {
    if |lines| == 0 || !NoKeyword(keywords, lines[0]) then 0
    else 1 + CleanPrefixLength(keywords, lines[1..])
  }

  /**
   * `itertools.takewhile(_checker(keywords), lines)`: the leading lines free of
   * the keywords, up to the first line that holds one.
   */
  function TakeWhile(keywords: seq<string>, lines: seq<string>): (r: seq<string>)
    ensures |r| <= |lines| && r == lines[..|r|]
    ensures forall k :: 0 <= k < |r| ==> NoKeyword(keywords, r[k])
    ensures |r| < |lines| ==> !NoKeyword(keywords, lines[|r|])
  {
    lines[..CleanPrefixLength(keywords, lines)]
  }

  /**
   * `itertools.dropwhile(_checker(keywords), lines)`: the lines from the first
   * one holding a keyword on; every line dropped is free of them.
   */
  function DropWhile(keywords: seq<string>, lines: seq<string>): (r: seq<string>)
    ensures |r| <= |lines| && r == lines[|lines| - |r|..]
    ensures forall k :: 0 <= k < |lines| - |r| ==> NoKeyword(keywords, lines[k])
    ensures r == [] || !NoKeyword(keywords, r[0])
  {
    lines[CleanPrefixLength(keywords, lines)..]
  }

  /** takewhile and dropwhile with the same test split the lines in two. */
  lemma TakeDropWhile(keywords: seq<string>, lines: seq<string>)
    ensures TakeWhile(keywords, lines) + DropWhile(keywords, lines) == lines
  {
    var n := CleanPrefixLength(keywords, lines);
    assert lines[..n] + lines[n..] == lines;
  }

  /** The first line is `lines[n]` and every earlier one passes: `n` is the cut of takewhile. */
  lemma CleanPrefixAt(keywords: seq<string>, lines: seq<string>, n: nat)
    requires n <= |lines|
    requires forall k :: 0 <= k < n ==> NoKeyword(keywords, lines[k])
    requires n == |lines| || !NoKeyword(keywords, lines[n])
    ensures CleanPrefixLength(keywords, lines) == n
  {
  }

  /** Python's `[v.strip() for v in parts]`. */
  function StripAll(parts: seq<string>): (r: seq<string>)
    ensures |r| == |parts| && forall k :: 0 <= k < |parts| ==> r[k] == Strip(parts[k])
  {
    seq(|parts|, k requires 0 <= k < |parts| => Strip(parts[k]))
  }

  /**
   * The (name, help) pair of one line of the Args section: the line split on
   * every colon, each fragment stripped, fragments 0 and 1 kept when there
   * are at least two.
   */
  function ArgEntry(line: string): Option<(string, string)> {
    var kv := StripAll(Split(line, ':'));
    if |kv| >= 2 then Some((kv[0], kv[1])) else None
  }

  /** An entry of the Args section: a name and its help, or nothing for a line without a colon. */
  type Entry = Option<(string, string)>

  /** The entry is for argument `name`. */
  predicate Names(e: Entry, name: string) {
    e.Some? && e.value.0 == name
  }

  /** The line defines argument `name`. */
  predicate Defines(line: string, name: string) {
    Names(ArgEntry(line), name)
  }

  /** A line gives an entry exactly when it holds a colon. */
  lemma ArgEntryIffColon(line: string)
    ensures ArgEntry(line).Some? <==> ':' in line
  {
    if ':' in line {
      var i := FirstIndexOf(line, ':');
      SplitAt(line, ':', i);
    } else {
      assert line[..|line|] == line;
      SplitAt(line, ':', |line|);
    }
  }

  /**
   * The name is the stripped text before the first colon, the help the
   * stripped text between the first colon and the next one (or the end of the
   * line); whatever follows a second colon is dropped.
   */
  lemma ArgEntryFields(line: string, i: nat, j: nat)
    requires i < j <= |line| && line[i] == ':' && ':' !in line[..i]
    requires ':' !in line[i + 1..j] && (j == |line| || line[j] == ':')
    ensures ArgEntry(line) == Some((Strip(line[..i]), Strip(line[i + 1..j])))
  {
    var parts := Split(line, ':');
    var rest := line[i + 1..];
    SplitAt(line, ':', i);
    assert rest[..j - i - 1] == line[i + 1..j];
    SplitAt(rest, ':', j - i - 1);
    assert parts[1] == Split(rest, ':')[0] == line[i + 1..j];
    var kv := StripAll(parts);
    assert kv[0] == Strip(line[..i]) && kv[1] == Strip(line[i + 1..j]);
  }

  /** The entries of the lines, in order. */
  function EntriesOf(pairs: seq<string>): (r: seq<Entry>)
    ensures |r| == |pairs| && forall i :: 0 <= i < |pairs| ==> r[i] == ArgEntry(pairs[i])
  {
    seq(|pairs|, i requires 0 <= i < |pairs| => ArgEntry(pairs[i]))
  }

  /** The map that storing the entries one after the other into an empty dict gives. */
  function MapOf(entries: seq<Entry>): map<string, string> {
    if |entries| == 0 then map[]
    else
      var m := MapOf(entries[..|entries| - 1]);
      var e := entries[|entries| - 1];
      if e.Some? then m[e.value.0 := e.value.1] else m
  }

  /** The argument map built from the lines after the `Args:` marker, in order. */
  function ArgMapOf(pairs: seq<string>): map<string, string> {
    MapOf(EntriesOf(pairs))
  }

  /** Every name in the map comes from some entry. */
  lemma {:induction false} MapOfKeysNamed(entries: seq<Entry>, name: string)
    requires name in MapOf(entries)
    ensures exists i :: 0 <= i < |entries| && Names(entries[i], name)
  {
    var init := entries[..|entries| - 1];
    if !Names(entries[|entries| - 1], name) {
      MapOfKeysNamed(init, name);
      var i :| 0 <= i < |init| && Names(init[i], name);
      assert init[i] == entries[i];
    }
  }

  /** Every named entry has its name in the map. */
  lemma {:induction false} MapOfHasNamed(entries: seq<Entry>, i: nat, name: string)
    requires i < |entries| && Names(entries[i], name)
    ensures name in MapOf(entries)
  {
    var init := entries[..|entries| - 1];
    if i < |init| {
      assert init[i] == entries[i];
      MapOfHasNamed(init, i, name);
    }
  }

  /** The last entry for a name decides its value. */
  lemma {:induction false} MapOfLastWins(entries: seq<Entry>, i: nat)
    requires i < |entries| && entries[i].Some?
    requires forall j :: i < j < |entries| ==> !Names(entries[j], entries[i].value.0)
    ensures entries[i].value.0 in MapOf(entries)
    ensures MapOf(entries)[entries[i].value.0] == entries[i].value.1
  {
    var init := entries[..|entries| - 1];
    if i < |entries| - 1 {
      assert forall k :: 0 <= k < |init| ==> init[k] == entries[k];
      MapOfLastWins(init, i);
      assert !Names(entries[|entries| - 1], entries[i].value.0);
    }
  }

  /** A name is in the argument map exactly when some line defines it. */
  lemma ArgMapKeys(pairs: seq<string>, name: string)
    ensures name in ArgMapOf(pairs) <==> exists i :: 0 <= i < |pairs| && Defines(pairs[i], name)
  {
    var entries := EntriesOf(pairs);
    if name in ArgMapOf(pairs) {
      MapOfKeysNamed(entries, name);
      var i :| 0 <= i < |entries| && Names(entries[i], name);
      assert Defines(pairs[i], name);
    }
    if exists i :: 0 <= i < |pairs| && Defines(pairs[i], name) {
      var i :| 0 <= i < |pairs| && Defines(pairs[i], name);
      MapOfHasNamed(entries, i, name);
    }
  }

  /** A name maps to the help of the LAST line defining it: later lines overwrite earlier ones. */
  lemma ArgMapLastWins(pairs: seq<string>, i: nat)
    requires i < |pairs| && ArgEntry(pairs[i]).Some?
    requires forall j :: i < j < |pairs| ==> !Defines(pairs[j], ArgEntry(pairs[i]).value.0)
    ensures ArgEntry(pairs[i]).value.0 in ArgMapOf(pairs)
    ensures ArgMapOf(pairs)[ArgEntry(pairs[i]).value.0] == ArgEntry(pairs[i]).value.1
  {
    MapOfLastWins(EntriesOf(pairs), i);
  }

  /** The loop that fills the argument map from the Args block (marker line first). */
  method BuildArgMap(args: seq<string>) returns (argmap: map<string, string>)
    ensures argmap == if |args| > 1 then ArgMapOf(args[1..]) else map[]
  {
    argmap := map[];
    if |args| > 1 {
      var pairs := args[1..];
      for i := 0 to |pairs|
        invariant argmap == ArgMapOf(pairs[..i])
      {
        var kv := StripAll(Split(pairs[i], ':'));
        if |kv| >= 2 {
          argmap := argmap[kv[0] := kv[1]];
        }
        assert EntriesOf(pairs[..i + 1])[..i] == EntriesOf(pairs[..i]);
      }
      assert pairs[..|pairs|] == pairs;
    }
  }

  /** What `_parse_doc` returns. */
  datatype DocInfo = DocInfo(headline: string, description: string, args: map<string, string>)

  /** `_parse_doc` can index its headline: the first line holds no keyword. */
  predicate HasHeadline(doc: string) {
    NoKeyword(Keywords, Split(doc, '\n')[0])
  }

  /** `_parse_doc(doc)`. */
  function ParseDoc(doc: string): (r: DocInfo)
    requires HasHeadline(doc)
    ensures IsPrefix(r.headline, doc) && '\n' !in r.headline
    ensures IsPrefix(r.headline, r.description)
  {
    var lines := Split(doc, '\n');
    var descriptions := TakeWhile(Keywords, lines);
    assert descriptions[0] == lines[0];
    HeadlineIsPrefix(doc);
    SplitPiecesFree(doc, '\n');
    DocInfo(descriptions[0], DescriptionOf(lines), ArgsOf(lines))
  }

  /** The description `_parse_doc` builds from the lines of a docstring. */
  function DescriptionOf(lines: seq<string>): string
    requires |lines| >= 1
  {
    var descriptions := TakeWhile(Keywords, lines);
    if |descriptions| < 3 then lines[0]
    else lines[0] + "\n\n" + Dedent(Join(descriptions[2..], "\n"))
  }

  /** The argument map `_parse_doc` builds from the lines of a docstring. */
  function ArgsOf(lines: seq<string>): map<string, string> {
    var args := TakeWhile(OtherKeywords, DropWhile(ArgsKeywords, lines));
    if |args| > 1 then ArgMapOf(args[1..]) else map[]
  }

  /** The first piece of a split is a prefix of the joined text. */
  lemma HeadlineIsPrefix(doc: string)
    ensures IsPrefix(Split(doc, '\n')[0], doc)
  {
    var lines := Split(doc, '\n');
    JoinSplit(doc, '\n');
    if |lines| > 1 {
      assert doc == lines[0] + "\n" + Join(lines[1..], "\n");
    }
  }

  /**
   * The headline is the first line of the docstring verbatim: everything up to
   * the first newline, or the whole docstring when it has none.
   */
  lemma ParseDocHeadline(doc: string, i: nat)
    requires HasHeadline(doc)
    requires i <= |doc| && '\n' !in doc[..i] && (i == |doc| || doc[i] == '\n')
    ensures ParseDoc(doc).headline == doc[..i]
  {
    SplitAt(doc, '\n', i);
  }

  /** An empty docstring parses to an empty headline, an empty description and no arguments. */
  lemma ParseDocEmpty()
    ensures HasHeadline("")
    ensures ParseDoc("") == DocInfo("", "", map[])
  {
    assert Split("", '\n') == [""];
    assert NoKeyword(Keywords, "");
    CleanPrefixAt(Keywords, [""], 1);
    CleanPrefixAt(ArgsKeywords, [""], 1);
  }

  /** The description block is empty (and the headline missing) exactly when the first line holds a keyword. */
  lemma DescriptionsEmptyIff(doc: string)
    ensures TakeWhile(Keywords, Split(doc, '\n')) == [] <==> !HasHeadline(doc)
  {
  }

  /** A description block of fewer than three lines gives the headline alone as description. */
  lemma ParseDocShortDescription(doc: string, n: nat)
    requires HasHeadline(doc)
    requires n < 3 && n <= |Split(doc, '\n')|
    requires forall k :: 0 <= k < n ==> NoKeyword(Keywords, Split(doc, '\n')[k])
    requires n == |Split(doc, '\n')| || !NoKeyword(Keywords, Split(doc, '\n')[n])
    ensures ParseDoc(doc).description == ParseDoc(doc).headline
  {
    CleanPrefixAt(Keywords, Split(doc, '\n'), n);
  }

  /**
   * A description block of `n >= 3` lines gives the headline, an empty line,
   * and block lines 2 to n-1 dedented; lines 0 and 1 never enter the body.
   */
  lemma ParseDocLongDescription(doc: string, n: nat)
    requires HasHeadline(doc)
    requires 3 <= n <= |Split(doc, '\n')|
    requires forall k :: 0 <= k < n ==> NoKeyword(Keywords, Split(doc, '\n')[k])
    requires n == |Split(doc, '\n')| || !NoKeyword(Keywords, Split(doc, '\n')[n])
    ensures ParseDoc(doc).description
      == ParseDoc(doc).headline + "\n\n" + Join(DedentLines(Split(doc, '\n')[2..n]), "\n")
  {
    var lines := Split(doc, '\n');
    CleanPrefixAt(Keywords, lines, n);
    var body := lines[2..n];
    assert TakeWhile(Keywords, lines)[2..] == body;
    SplitPiecesFree(doc, '\n');
    SplitJoin(body, '\n');
  }

  /**
   * Lines `a` to `b` - 1 are the Args block: line `a` is the first holding
   * `Args:`, and line `b` is the first from `a` on holding another keyword
   * (or `b` is the end of the docstring).
   */
  predicate IsArgsBlock(lines: seq<string>, a: nat, b: nat) {
    && a < |lines| && Contains(lines[a], "Args:")
    && (forall k :: 0 <= k < a ==> !Contains(lines[k], "Args:"))
    && a <= b <= |lines|
    && (forall k :: a <= k < b ==> NoKeyword(OtherKeywords, lines[k]))
    && (b == |lines| || !NoKeyword(OtherKeywords, lines[b]))
  }

  /** The Args block is what the takewhile/dropwhile pipeline of `_parse_doc` keeps. */
  lemma ArgsBlockAt(lines: seq<string>, a: nat, b: nat)
    requires IsArgsBlock(lines, a, b)
    ensures TakeWhile(OtherKeywords, DropWhile(ArgsKeywords, lines)) == lines[a..b]
  {
    assert ArgsKeywords == ["Args:"];
    assert Contains(lines[a], ArgsKeywords[0]);
    CleanPrefixAt(ArgsKeywords, lines, a);
    var rest := lines[a..];
    CleanPrefixAt(OtherKeywords, rest, b - a);
  }

  /**
   * The argument map is read from the lines strictly after the first line
   * holding `Args:` and before the first line from there on holding
   * `Returns:`, `Raises:` or `Yields:`.
   */
  lemma ParseDocArgs(doc: string, a: nat, b: nat)
    requires HasHeadline(doc) && IsArgsBlock(Split(doc, '\n'), a, b)
    ensures ParseDoc(doc).args == if b <= a + 1 then map[] else ArgMapOf(Split(doc, '\n')[a + 1..b])
  {
    var lines := Split(doc, '\n');
    ArgsBlockAt(lines, a, b);
    if b > a + 1 {
      assert lines[a..b][1..] == lines[a + 1..b];
    }
  }

  /** Without a line holding `Args:` the argument map is empty. */
  lemma ParseDocNoArgs(doc: string)
    requires HasHeadline(doc)
    requires forall k :: 0 <= k < |Split(doc, '\n')| ==> !Contains(Split(doc, '\n')[k], "Args:")
    ensures ParseDoc(doc).args == map[]
  {
    var lines := Split(doc, '\n');
    assert ArgsKeywords == ["Args:"];
    CleanPrefixAt(ArgsKeywords, lines, |lines|);
  }

  /** The entries of a slice of the lines are the slice of their entries. */
  lemma EntriesOfSlice(lines: seq<string>, lo: nat, hi: nat)
    requires lo <= hi <= |lines|
    ensures EntriesOf(lines[lo..hi]) == EntriesOf(lines)[lo..hi]
  {
  }

  /** Last-wins, read on the lines of a whole docstring between `lo` and `hi`. */
  lemma SectionLastWins(lines: seq<string>, lo: nat, hi: nat, i: nat)
    requires lo <= i < hi <= |lines| && ArgEntry(lines[i]).Some?
    requires forall j :: i < j < hi ==> !Defines(lines[j], ArgEntry(lines[i]).value.0)
    ensures ArgEntry(lines[i]).value.0 in ArgMapOf(lines[lo..hi])
    ensures ArgMapOf(lines[lo..hi])[ArgEntry(lines[i]).value.0] == ArgEntry(lines[i]).value.1
  {
    EntriesOfSlice(lines, lo, hi);
    var all := EntriesOf(lines);
    var section := all[lo..hi];
    var p := i - lo;
    assert section[p] == all[i];
    forall j | p < j < |section| ensures !Names(section[j], all[i].value.0) {
      assert section[j] == all[j + lo];
    }
    MapOfLastWins(section, p);
  }

  /** A name in the map of lines `lo` to `hi` - 1 is defined by one of those lines. */
  lemma SectionKeyDefined(lines: seq<string>, lo: nat, hi: nat, name: string)
    requires lo <= hi <= |lines| && name in ArgMapOf(lines[lo..hi])
    ensures exists i :: lo <= i < hi && Defines(lines[i], name)
  {
    EntriesOfSlice(lines, lo, hi);
    var all := EntriesOf(lines);
    var section := all[lo..hi];
    MapOfKeysNamed(section, name);
    var j :| 0 <= j < |section| && Names(section[j], name);
    assert section[j] == all[j + lo];
    assert Defines(lines[j + lo], name);
  }

  /** A name defined by one of lines `lo` to `hi` - 1 is in their map. */
  lemma SectionHasDefined(lines: seq<string>, lo: nat, hi: nat, i: nat, name: string)
    requires lo <= i < hi <= |lines| && Defines(lines[i], name)
    ensures name in ArgMapOf(lines[lo..hi])
  {
    EntriesOfSlice(lines, lo, hi);
    var all := EntriesOf(lines);
    var section := all[lo..hi];
    assert section[i - lo] == all[i];
    MapOfHasNamed(section, i - lo, name);
  }

  /**
   * A name defined by line `i` of the Args block, and by no later line of it,
   * maps to the help of line `i`.
   */
  lemma ParseDocArgEntry(doc: string, a: nat, b: nat, i: nat)
    requires HasHeadline(doc) && IsArgsBlock(Split(doc, '\n'), a, b)
    requires a < i < b && ArgEntry(Split(doc, '\n')[i]).Some?
    requires forall j :: i < j < b ==> !Defines(Split(doc, '\n')[j], ArgEntry(Split(doc, '\n')[i]).value.0)
    ensures ArgEntry(Split(doc, '\n')[i]).value.0 in ParseDoc(doc).args
    ensures ParseDoc(doc).args[ArgEntry(Split(doc, '\n')[i]).value.0] == ArgEntry(Split(doc, '\n')[i]).value.1
  {
    ParseDocArgs(doc, a, b);
    SectionLastWins(Split(doc, '\n'), a + 1, b, i);
  }

  /** A name is in the argument map exactly when a line strictly inside the Args block defines it. */
  lemma ParseDocArgNames(doc: string, a: nat, b: nat, name: string)
    requires HasHeadline(doc) && IsArgsBlock(Split(doc, '\n'), a, b)
    ensures name in ParseDoc(doc).args <==> exists i :: a < i < b && Defines(Split(doc, '\n')[i], name)
  {
    var lines := Split(doc, '\n');
    var args := ParseDoc(doc).args;
    ParseDocArgs(doc, a, b);
    if b > a + 1 {
      assert args == ArgMapOf(lines[a + 1..b]);
      if name in args {
        SectionKeyDefined(lines, a + 1, b, name);
      }
      if exists i :: a < i < b && Defines(lines[i], name) {
        var i :| a < i < b && Defines(lines[i], name);
        SectionHasDefined(lines, a + 1, b, i, name);
      }
    } else {
      assert args == map[];
    }
  }
}
