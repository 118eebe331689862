# dsargparse, modelled in Dafny

dsargparse wraps Python's argparse so that the docstrings of command handlers
supply the help texts. This project models its core, `dsargparse.py`:

- **The docstring parser** (`_checker`, `_parse_doc`), module `Docstring`:
  a docstring is cut into lines. The description block is the longest run of
  leading lines in which none of `Args:`, `Returns:`, `Raises:`, `Yields:` occurs
  as a substring. The headline is its first line, verbatim. The description is
  the headline alone when the block has fewer than three lines. Otherwise it is
  the headline, an empty line, and block lines 2 onwards passed through
  `textwrap.dedent`. The argument map is read from the Args block: the lines
  from the first `Args:` line up to, but not including, the first line from
  the `Args:` line on that holds one of the other keywords. An `Args:` line that
  itself holds another keyword therefore ends the block at once. The block's
  first line is skipped. Each remaining
  line is split on every colon and the fragments are stripped. Fragment 0 is the
  name and fragment 1 the help, kept when there are at least two fragments.
  Later lines overwrite earlier ones.
- **The Python string operations it relies on**, module `Text`: `split`,
  `join`, `strip` and substring `in`. Module `TextWrap` holds `textwrap.dedent`.
  Lines made only of spaces and tabs become empty. The longest run of leading spaces and tabs
  common to the other lines is removed from each of them.
- **The wrapper**, module `Wrapper`. `_SubparsersWrapper.add_parser` fills
  `help`, `description` and `formatter_class` from the docstring only where the
  caller's value is missing or falsy. It defaults the command name to the
  function's name and hands the docstring's argument map to the new sub-parser.
  `ArgumentParser` keeps that map (`__argmap`). `add_argument` fills `help`
  only when the caller gave no `help` key. It takes the entry of the first flag
  that, with every `-` removed, names a documented argument. `_dispatch` calls
  the command with every parsed field except `cmd`. Python values are a small
  `Value` datatype with Python truthiness. argparse itself is a set of sinks that
  record the options they receive: `SubparsersAction` records every `add_parser`
  request, and `ArgumentParser` records its constructor options, its `add_argument`
  calls and its `set_defaults` values.

Behaviour kept as the code has it:

- The headline is the first line as it stands, with its whitespace kept.
- An empty docstring parses with an empty headline and does not fail. A
  docstring whose first line holds a keyword makes `_parse_doc` fail with an
  `IndexError`. `ParseDoc` requires that this does not happen (`HasHeadline`),
  and `SubparsersWrapper.AddParser` returns `MissingHeadline` in that case.
- `add_parser` passes the docstring's argument map to argparse as the keyword
  `argmap`. A caller's own `argmap` keyword makes that call raise `TypeError`;
  `SubparsersWrapper.AddParser` returns `DuplicateArgmap` then.
- Each line after the `Args:` marker is split on every colon. Whatever follows a second colon is
  dropped.
- `add_argument` removes every `-` from a flag, wherever it stands. It leaves
  an explicit `help` alone even when that value is falsy.

## Model

| member | source | states |
|---|---|---|
| `Text.JoinSplit` | dsargparse.py:60 | `Join` undoes `Split`: the lines of a docstring, joined again with newlines, give the docstring back |
| `Text.SplitJoin` | dsargparse.py:60-67 | `Split` undoes `Join`: splitting a newline-join of newline-free lines gives those lines back (used to read the dedented description line by line) |
| `Text.SplitPiecesFree` | dsargparse.py:60 | no piece of `split(sep)` contains the separator |
| `Text.Strip` | dsargparse.py:75 | the result of `strip()` neither starts nor ends with whitespace |
| `Text.StripSpec` | dsargparse.py:75 | `strip()` returns a stretch of its input flanked on both sides only by whitespace |
| `TextWrap.MarginOf` | dsargparse.py:67 | dedent's margin is absent exactly when all lines are blank, and is otherwise a prefix of the indentation of every non-blank line |
| `TextWrap.MarginIsLongest` | dsargparse.py:67 | the margin is the longest such prefix: every indentation common to all non-blank lines is a prefix of it |
| `TextWrap.DedentLines` | dsargparse.py:67 | dedent keeps the number of lines, empties blank lines, and removes exactly the margin from every other line |
| `TextWrap.DedentIdempotent` | dsargparse.py:67 | dedenting an already dedented block changes nothing |
| `TextWrap.DedentSplit` | dsargparse.py:67 | `Dedent` on a text: the lines of the dedented text are exactly the dedented lines of the text |
| `TextWrap.DedentTextIdempotent` | dsargparse.py:67 | `Dedent` applied twice to a text gives the same text as applied once |
| `Docstring.Checker` | dsargparse.py:37-45 | the checker returns true exactly when none of the keywords occurs as a substring of the value (`Contains` is Python's `keyword in value`: some position of the value starts an occurrence of the keyword) |
| `Docstring.CleanPrefixLength` | dsargparse.py:61 | takewhile/dropwhile cut the lines after the longest prefix of lines free of the keywords; the line at the cut holds one |
| `Docstring.TakeWhile` | dsargparse.py:61-71 | `takewhile` returns a prefix of the lines, every line in it is free of the keywords, and the line right after it holds one |
| `Docstring.DropWhile` | dsargparse.py:69-70 | `dropwhile` returns a suffix of the lines, every line it drops is free of the keywords, and its first line holds one |
| `Docstring.TakeDropWhile` | dsargparse.py:61-71 | `takewhile` and `dropwhile` with the same test split the lines in two: together they give the lines back |
| `Docstring.ArgEntryIffColon` | dsargparse.py:75-77 | `ArgEntry`: a line of the Args section gives an entry exactly when it contains a colon |
| `Docstring.ArgEntryFields` | dsargparse.py:75-77 | `ArgEntry`: the entry's name is the stripped text before the first colon, its help the stripped text up to the second colon or the end of the line |
| `Docstring.MapOfKeysNamed` | dsargparse.py:72-77 | `MapOf`: every name in the dict built from the entries, one store after the other, comes from some entry |
| `Docstring.MapOfHasNamed` | dsargparse.py:72-77 | `MapOf`: every name some entry carries is in the dict |
| `Docstring.MapOfLastWins` | dsargparse.py:72-77 | `MapOf`: a name maps to the help of the last entry carrying it |
| `Docstring.ArgMapKeys` | dsargparse.py:72-77 | `ArgMapOf`: a name is in the argument map exactly when some line defines it |
| `Docstring.ArgMapLastWins` | dsargparse.py:72-77 | `ArgMapOf`: a name maps to the help of the last line defining it; later lines overwrite earlier ones |
| `Docstring.BuildArgMap` | dsargparse.py:72-77 | the loop over the Args block, marker line skipped, builds the argument map; a block of at most one line gives an empty map |
| `Docstring.ParseDoc` | dsargparse.py:48-79 | the headline is a newline-free prefix of the docstring, and the description starts with the headline |
| `Docstring.ParseDocEmpty` | dsargparse.py:60-79 | an empty docstring gives an empty headline, an empty description and no arguments |
| `Docstring.ParseDocHeadline` | dsargparse.py:79 | the headline is the docstring up to its first newline, verbatim |
| `Docstring.DescriptionsEmptyIff` | dsargparse.py:61 | the description block is empty exactly when the first line holds a keyword, the case where `_parse_doc` fails |
| `Docstring.ParseDocShortDescription` | dsargparse.py:63-64 | `DescriptionOf`: a description block of fewer than three lines gives the headline alone as description |
| `Docstring.ParseDocLongDescription` | dsargparse.py:65-67 | `DescriptionOf`: a block of three or more lines gives the headline, an empty line, and the dedented block lines from index 2 on |
| `Docstring.ParseDocArgs` | dsargparse.py:69-73 | `ArgsOf`: the argument map is read from the lines strictly between the first `Args:` line and the first line from the `Args:` line on that holds another keyword (so an `Args:` line holding one gives an empty map); it is empty when no line lies between |
| `Docstring.ParseDocNoArgs` | dsargparse.py:69-73 | `ArgsOf`: without a line holding `Args:` the argument map is empty |
| `Docstring.ParseDocArgNames` | dsargparse.py:69-77 | a name is in the argument map exactly when a line strictly inside the Args section defines it |
| `Docstring.ParseDocArgEntry` | dsargparse.py:72-77 | a documented name maps to the help of the last line of the Args section that defines it |
| `Wrapper.FillIfFalsy` | dsargparse.py:122-127 | an option is set to the default exactly when it is missing or falsy; no other key changes |
| `Wrapper.SubcommandOptionsSpec` | dsargparse.py:122-127 | `SubcommandOptions`: `add_parser` sets `help` to the headline, `description` to the description and `formatter_class` to RawTextHelpFormatter only where missing or falsy, keeps every truthy value given and touches no other key |
| `Wrapper.SubcommandOptionsIdempotent` | dsargparse.py:122-127 | filling the options twice from the same docstring gives the same options as filling once |
| `Wrapper.CommandName` | dsargparse.py:129-130 | a truthy name given by the caller is kept; otherwise the function's name is used, and a function without a name is passed itself |
| `Wrapper.SubparsersWrapper.constructor` | dsargparse.py:90-91 | the wrapper keeps the subparsers action it delegates to |
| `Wrapper.SubparsersWrapper.AddParser` | dsargparse.py:118-134 | fails before argparse is asked for anything when the function has no docstring (`NoDocstring`, or `NoFunctionName` when it has no name either), when the docstring's first line holds a keyword (`MissingHeadline`, where `_parse_doc` raises `IndexError`), or when the caller passes `argmap` itself (`DuplicateArgmap`, Python's `TypeError` for a keyword given twice); otherwise one sub-parser is requested with the command name, the docstring's argument map and the filled options, and its default `cmd` is the function |
| `Wrapper.RemoveDashes` | dsargparse.py:196 | a flag name with its dashes removed contains no dash, and a lone dash becomes the empty string (with the two lemmas below this fixes `name.replace("-", "")` on every string) |
| `Wrapper.RemoveDashesConcat` | dsargparse.py:196 | dash removal keeps the order of the other characters: it distributes over concatenation |
| `Wrapper.RemoveDashesNoDash` | dsargparse.py:196 | a name without dashes is left unchanged |
| `Wrapper.FirstMatch` | dsargparse.py:195-199 | the search returns the first flag whose dash-free name is documented, and none when no flag is |
| `Wrapper.ArgumentOptionsSpec` | dsargparse.py:194-199 | `ArgumentOptions`: `add_argument` changes only `help`, and only when no `help` key was given; it then uses the entry of the first documented flag, and leaves the options unchanged when there is none |
| `Wrapper.ArgumentHelpExample` | dsargparse.py:194-199 | a flag `--name` with no help finds the entry documented under `name`: both dashes are dropped before the look-up |
| `Wrapper.SampleGoodbyeHelp` | sample.py:91 | the `goodbye` command's positional `name`, added without help, gets the help `name: name of the person say goodbye to.` at sample.py line 31, given the argument map of that docstring (the map is written out, not computed by `ParseDoc`) |
| `Wrapper.ArgumentParser.AddArgument` | dsargparse.py:194-200 | the loop with `break` records one argument whose options are the caller's options with the help filled as above |
| `Wrapper.ParserOptionsSpec` | dsargparse.py:155-159 | `ParserOptions`: with a main function, `description` comes from its module's docstring and `formatter_class` is RawTextHelpFormatter, each only where missing or falsy; without one the options pass unchanged |
| `Wrapper.ArgumentParser.constructor` | dsargparse.py:154-162 | the parser keeps the given argument map (empty when none) and hands the filled options to argparse |
| `Wrapper.ArgumentParser.AddSubparsers` | dsargparse.py:164-175 | the subparsers action is wrapped in a fresh `SubparsersWrapper` |
| `Wrapper.ArgumentParser.SetDefault` | dsargparse.py:133 | the sub-parser records `cmd` as its default |
| `Wrapper.SubparsersAction.AddParser` | dsargparse.py:132 | argparse's action records the request and builds a sub-parser that keeps the argument map |
| `Wrapper.DispatchSpec` | dsargparse.py:213-217 | `Dispatch`: the command is the parsed `cmd`; it is called with every other parsed field unchanged, and putting `cmd` back gives the parsed fields again; without `cmd` the call fails |

## Left out

- argparse itself: `parse_args`, the real `add_subparsers`, `add_parser`, `add_argument` and `set_defaults` (dsargparse.py:132-133, 162, 175, 200, 211). Sinks stand in for them and record what they are given. The sub-parser built by the `SubparsersAction` sink keeps every option it receives. argparse's own handling of `help`, `aliases` and `prog` there is not modelled.
- `parse_and_run` (dsargparse.py:202-211) is only the call of argparse's `parse_args` followed by `_dispatch`. Only `_dispatch`'s argument map is modelled (`Dispatch`).
- Calling the selected command, `cmd(**kwargs)` (dsargparse.py:217), is a call into arbitrary code. The model stops at the command and its keyword map.
- The copying of argparse's public names into the module (dsargparse.py:22-25) is reflection with nothing to state.
- `inspect.getmodule(main).__doc__` (dsargparse.py:157) is runtime reflection. The module's docstring is a parameter (`Main.moduleDoc`).
- `_SubparsersWrapper.__repr__` (dsargparse.py:136-137) only forwards to argparse.
- `RawTextHelpFormatter` is an opaque token value. How help is rendered is not modelled.
- Python values are reduced to `None`, booleans, integers, strings, classes and callables, with Python truthiness. Exception messages are reduced to the error kind (and the function's name for the missing docstring).
- `TextWrap.DedentLines` follows the regular-expression `textwrap.dedent` of Python up to 3.12. There, only spaces and tabs count as indentation.
- sample.py, setup.py and tests/test_suite.py are an example program, packaging metadata and a test runner. They are not part of this model, apart from one `add_argument` call of sample.py checked by `Wrapper.SampleGoodbyeHelp`.
