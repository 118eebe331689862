/**
 * The argparse wrapper of dsargparse: the subcommand wrapper and the
 * customised ArgumentParser fill help texts and descriptions from docstrings,
 * only where the caller left them out, and `_dispatch` hands the parsed
 * options to the selected command. argparse itself is represented by sinks
 * that record what they receive.
 */
module Wrapper {
  import opened Common
  import opened Docstring

  /** A command handler: its `__name__` (if it has one) and its `__doc__`. */
  datatype Function = Function(name: Option<string>, doc: Option<string>)

  /** The Python values that appear as keyword arguments. */
  datatype Value =
    | PyNone
    | Bool(b: bool)
    | Int(i: int)
    | Str(s: string)
    | Class(className: string)
    | Callable(f: Function)

  /** Python truthiness of a value. */
  predicate Truthy(v: Value) {
    match v
    case PyNone => false
    case Bool(b) => b
    case Int(i) => i != 0
    case Str(s) => s != ""
    case Class(_) => true
    case Callable(_) => true
  }

  /** The keyword arguments of a call. */
  type Options = map<string, Value>

  const Help := "help"
  const Description := "description"
  const FormatterClass := "formatter_class"
  const Cmd := "cmd"

  /** `argparse.RawTextHelpFormatter`, kept as an opaque token. */
  const RawTextHelpFormatter := Class("RawTextHelpFormatter")

  /** What fails in the wrapper, as the Python exception it raises. */
  datatype Error =
    | NoDocstring(funcName: string)   // ValueError: no docstring given
    | NoFunctionName                  // AttributeError: `func.__name__` read on a nameless callable
    | MissingHeadline                 // IndexError: the docstring starts with a section keyword
    | MissingCommand                  // TypeError: `_dispatch` received no `cmd`
    | DuplicateArgmap                 // TypeError: `argmap` given twice to argparse's `add_parser`

  /** The caller gave `key` a truthy value. */
  predicate Given(kwargs: Options, key: string) {
    key in kwargs && Truthy(kwargs[key])
  }

  /**
   * `if key not in kwargs or not kwargs[key]: kwargs[key] = v`: the entry is
   * set exactly when it is missing or falsy, and nothing else changes.
   */
  function FillIfFalsy(kwargs: Options, key: string, v: Value): (r: Options)
    ensures r.Keys == kwargs.Keys + {key}
    ensures r[key] == if Given(kwargs, key) then kwargs[key] else v
    ensures forall k :: k in kwargs && k != key ==> r[k] == kwargs[k]
  {
    if key !in kwargs || !Truthy(kwargs[key]) then kwargs[key := v] else kwargs
  }

  /** The options `add_parser` hands on, given the parsed docstring. */
  function SubcommandOptions(kwargs: Options, info: DocInfo): Options {
    var kw := FillIfFalsy(kwargs, Help, Str(info.headline));
    var kw := FillIfFalsy(kw, Description, Str(info.description));
    FillIfFalsy(kw, FormatterClass, RawTextHelpFormatter)
  }

  /**
   * `add_parser` fills `help`, `description` and `formatter_class` from the
   * docstring only when missing or falsy, keeps every truthy value the caller
   * gave, and touches no other key.
   */
  lemma SubcommandOptionsSpec(kwargs: Options, info: DocInfo)
    ensures SubcommandOptions(kwargs, info).Keys == kwargs.Keys + {Help, Description, FormatterClass}
    ensures SubcommandOptions(kwargs, info)[Help]
      == if Given(kwargs, Help) then kwargs[Help] else Str(info.headline)
    ensures SubcommandOptions(kwargs, info)[Description]
      == if Given(kwargs, Description) then kwargs[Description] else Str(info.description)
    ensures SubcommandOptions(kwargs, info)[FormatterClass]
      == if Given(kwargs, FormatterClass) then kwargs[FormatterClass] else RawTextHelpFormatter
    ensures forall k :: Given(kwargs, k) ==> SubcommandOptions(kwargs, info)[k] == kwargs[k]
    ensures forall k :: k in kwargs && k !in {Help, Description, FormatterClass} ==>
              SubcommandOptions(kwargs, info)[k] == kwargs[k]
  {
  }

  /** Filling the options a second time from the same docstring changes nothing. */
  lemma SubcommandOptionsIdempotent(kwargs: Options, info: DocInfo)
    ensures SubcommandOptions(SubcommandOptions(kwargs, info), info) == SubcommandOptions(kwargs, info)
  {
  }

  /** `add_parser`'s default command name: the function's name, or the function itself. */
  function CommandName(func: Function, name: Value): (r: Value)
    ensures Truthy(name) ==> r == name
    ensures !Truthy(name) && func.name.Some? ==> r == Str(func.name.value)
    ensures !Truthy(name) && func.name.None? ==> r == Callable(func)
  {
    if Truthy(name) then name
    else if func.name.Some? then Str(func.name.value)
    else Callable(func)
  }

  /** `name.replace("-", "")`. */
  function RemoveDashes(s: string): (r: string)
    ensures '-' !in r
    ensures s == "-" ==> r == ""
  {
    if |s| == 0 then ""
    else if s[0] == '-' then RemoveDashes(s[1..]) else [s[0]] + RemoveDashes(s[1..])
  }

  /** Removing dashes keeps the order of the other characters: it distributes over concatenation. */
  lemma {:induction false} RemoveDashesConcat(a: string, b: string)
    ensures RemoveDashes(a + b) == RemoveDashes(a) + RemoveDashes(b)
  {
    if |a| > 0 {
      assert (a + b)[1..] == a[1..] + b;
      RemoveDashesConcat(a[1..], b);
    } else {
      assert a + b == b;
    }
  }

  /** A name without dashes is left as it is. */
  lemma {:induction false} RemoveDashesNoDash(s: string)
    requires '-' !in s
    ensures RemoveDashes(s) == s
  {
    if |s| > 0 {
      RemoveDashesNoDash(s[1..]);
      assert s == [s[0]] + s[1..];
    }
  }

  /** The first flag whose name, with dashes removed, has an entry in `argmap`. */
  function FirstMatch(argmap: map<string, string>, flags: seq<string>): (r: Option<nat>)
    ensures r.Some? ==> r.value < |flags| && RemoveDashes(flags[r.value]) in argmap
    ensures r.Some? ==> forall j :: 0 <= j < r.value ==> RemoveDashes(flags[j]) !in argmap
    ensures r.None? ==> forall j :: 0 <= j < |flags| ==> RemoveDashes(flags[j]) !in argmap
  {
    if |flags| == 0 then None
    else if RemoveDashes(flags[0]) in argmap then Some(0)
    else
      var rest := FirstMatch(argmap, flags[1..]);
      assert forall j :: 0 <= j < |flags| - 1 ==> flags[1..][j] == flags[j + 1];
      if rest.None? then None else Some(rest.value + 1)
  }

  /** The options `add_argument` hands to argparse. */
  function ArgumentOptions(argmap: map<string, string>, flags: seq<string>, kwargs: Options): Options {
    if Help in kwargs then kwargs
    else match FirstMatch(argmap, flags)
      case None => kwargs
      case Some(i) => kwargs[Help := Str(argmap[RemoveDashes(flags[i])])]
  }

  /**
   * `add_argument` changes only `help`, and only when the caller gave no `help`
   * key at all (a falsy one is kept); it then takes the entry of the first flag
   * found in the argument map, and leaves the options as they are if none is.
   */
  lemma ArgumentOptionsSpec(argmap: map<string, string>, flags: seq<string>, kwargs: Options)
    ensures Help in kwargs ==> ArgumentOptions(argmap, flags, kwargs) == kwargs
    ensures ArgumentOptions(argmap, flags, kwargs) - {Help} == kwargs - {Help}
    ensures Help !in kwargs ==>
              (Help in ArgumentOptions(argmap, flags, kwargs) <==>
                 exists j :: 0 <= j < |flags| && RemoveDashes(flags[j]) in argmap)
    ensures forall i ::
              0 <= i < |flags| && Help !in kwargs && RemoveDashes(flags[i]) in argmap
              && (forall j :: 0 <= j < i ==> RemoveDashes(flags[j]) !in argmap)
              ==> ArgumentOptions(argmap, flags, kwargs) == kwargs[Help := Str(argmap[RemoveDashes(flags[i])])]
  {
    var r := ArgumentOptions(argmap, flags, kwargs);
    if Help !in kwargs {
      match FirstMatch(argmap, flags)
      case None =>
      case Some(i) =>
        assert r - {Help} == kwargs - {Help};
    }
  }

  /** `_dispatch(cmd, **kwargs)`: the selected command and the keyword arguments it is called with. */
  function Dispatch(parsed: Options): Result<(Value, Options), Error> {
    if Cmd in parsed then Success((parsed[Cmd], parsed - {Cmd})) else Failure(MissingCommand)
  }

  /**
   * The command is called with every parsed field except `cmd`, unchanged;
   * putting `cmd` back gives the parsed namespace again.
   */
  lemma DispatchSpec(parsed: Options)
    ensures Dispatch(parsed).Success? <==> Cmd in parsed
    ensures Dispatch(parsed).Success? ==> Dispatch(parsed).value.1.Keys == parsed.Keys - {Cmd}
    ensures Dispatch(parsed).Success? ==>
      forall k :: k in Dispatch(parsed).value.1 ==> Dispatch(parsed).value.1[k] == parsed[k]
    ensures Dispatch(parsed).Success? ==>
      Dispatch(parsed).value.1[Cmd := Dispatch(parsed).value.0] == parsed
  {
  }

  /** Whether a main function was given, and the docstring of the module defining it. */
  datatype Main = NoMain | Main(moduleDoc: Option<string>)

  /** `__doc__` as a Python value. */
  function DocValue(doc: Option<string>): Value {
    match doc
    case None => PyNone
    case Some(s) => Str(s)
  }

  /** The options `ArgumentParser.__init__` hands to argparse. */
  function ParserOptions(main: Main, kwargs: Options): Options {
    if main.NoMain? then kwargs
    else FillIfFalsy(FillIfFalsy(kwargs, Description, DocValue(main.moduleDoc)), FormatterClass, RawTextHelpFormatter)
  }

  /**
   * `__init__` with a main function fills `description` from the module's
   * docstring and `formatter_class` only when missing or falsy; without one
   * the options pass through untouched.
   */
  lemma ParserOptionsSpec(main: Main, kwargs: Options)
    ensures main.NoMain? ==> ParserOptions(main, kwargs) == kwargs
    ensures main.Main? ==> ParserOptions(main, kwargs).Keys == kwargs.Keys + {Description, FormatterClass}
    ensures main.Main? ==>
              ParserOptions(main, kwargs)[Description] == if Given(kwargs, Description) then kwargs[Description] else DocValue(main.moduleDoc)
    ensures main.Main? ==>
              ParserOptions(main, kwargs)[FormatterClass] == if Given(kwargs, FormatterClass) then kwargs[FormatterClass] else RawTextHelpFormatter
    ensures forall k :: k in kwargs && k != Description && k != FormatterClass ==>
              ParserOptions(main, kwargs)[k] == kwargs[k]
  {
  }

  /**
   * A flag `--name` given without help finds the entry documented under `name`:
   * both dashes are dropped before the look-up.
   */
  lemma ArgumentHelpExample()
    ensures ArgumentOptions(map["name" := "the person's name."], ["--name"], map[])
      == map[Help := Str("the person's name.")]
  {
    assert "--name" == "-" + ("-" + "name");
    RemoveDashesConcat("-", "-" + "name");
    RemoveDashesConcat("-", "name");
    RemoveDashesNoDash("name");
    FirstMatchAt(map["name" := "the person's name."], ["--name"], 0);
  }

  /**
   * The `goodbye` command of sample.py: given the argument map of its
   * docstring, its positional argument `name`, added without help, gets the
   * help documented for `name`.
   */
  lemma SampleGoodbyeHelp()
    ensures ArgumentOptions(map["name" := "name of the person say goodbye to."], ["name"], map[])
      == map[Help := Str("name of the person say goodbye to.")]
  {
    RemoveDashesNoDash("name");
    FirstMatchAt(map["name" := "name of the person say goodbye to."], ["name"], 0);
  }

  /** One `add_argument` call as argparse receives it. */
  datatype ArgumentCall = ArgumentCall(flags: seq<string>, options: Options)

  /** One `add_parser` call as argparse's subparsers action receives it. */
  datatype ParserRequest = ParserRequest(name: Value, argmap: map<string, string>, options: Options)

  /** `dsargparse.ArgumentParser`, with argparse's own parser as recorded state. */
  class ArgumentParser {
    /** The name-to-help map of the command this parser serves (`__argmap`). */
    const argmap: map<string, string>
    /** The options handed to argparse's constructor. */
    var options: Options
    /** The arguments registered with argparse, in order. */
    var arguments: seq<ArgumentCall>
    /** The values set by `set_defaults`. */
    var defaults: Options

    constructor (main: Main, argmap: Option<map<string, string>>, kwargs: Options)
      ensures this.argmap == if argmap.Some? then argmap.value else map[]
      ensures options == ParserOptions(main, kwargs)
      ensures arguments == [] && defaults == map[]
    {
      var kw := kwargs;
      if main.Main? {
        if Description !in kw || !Truthy(kw[Description]) {
          kw := kw[Description := DocValue(main.moduleDoc)];
        }
        if FormatterClass !in kw || !Truthy(kw[FormatterClass]) {
          kw := kw[FormatterClass := RawTextHelpFormatter];
        }
      }
      this.argmap := if argmap.Some? then argmap.value else map[];
      options := kw;
      arguments := [];
      defaults := map[];
    }

    /** `add_argument(*flags, **kwargs)`. */
    method AddArgument(flags: seq<string>, kwargs: Options)
      modifies this`arguments
      ensures arguments == old(arguments) + [ArgumentCall(flags, ArgumentOptions(argmap, flags, kwargs))]
    {
      var kw := kwargs;
      if Help !in kw {
        var i := 0;
        while i < |flags|
          invariant 0 <= i <= |flags|
          invariant forall j :: 0 <= j < i ==> RemoveDashes(flags[j]) !in argmap
          invariant kw == kwargs
        {
          var name := RemoveDashes(flags[i]);
          if name in argmap {
            kw := kw[Help := Str(argmap[name])];
            assert FirstMatch(argmap, flags) == Some(i) by {
              FirstMatchAt(argmap, flags, i);
            }
            break;
          }
          i := i + 1;
        }
      }
      arguments := arguments + [ArgumentCall(flags, kw)];
    }

    /** `set_defaults(key=v)`. */
    method SetDefault(key: string, v: Value)
      modifies this`defaults
      ensures defaults == old(defaults)[key := v]
    {
      defaults := defaults[key := v];
    }

    /** `add_subparsers()`: argparse's action, wrapped. */
    method AddSubparsers(kwargs: Options) returns (w: SubparsersWrapper)
      ensures fresh(w) && fresh(w.delegate)
      ensures w.delegate.options == kwargs && w.delegate.added == []
    {
      var action := new SubparsersAction(kwargs);
      w := new SubparsersWrapper(action);
    }
  }

  /** The first match is at `i` when `i` matches and no earlier flag does. */
  lemma FirstMatchAt(argmap: map<string, string>, flags: seq<string>, i: nat)
    requires i < |flags| && RemoveDashes(flags[i]) in argmap
    requires forall j :: 0 <= j < i ==> RemoveDashes(flags[j]) !in argmap
    ensures FirstMatch(argmap, flags) == Some(i)
  {
    var r := FirstMatch(argmap, flags);
    assert r.Some?;
    assert !(r.value < i);
    assert !(r.value > i);
  }

  /** argparse's subparsers action: records every parser it is asked for. */
  class SubparsersAction {
    var options: Options
    var added: seq<ParserRequest>

    constructor (kwargs: Options)
      ensures options == kwargs && added == []
    {
      options := kwargs;
      added := [];
    }

    /** `add_parser(name, argmap=argmap, **options)`: builds a dsargparse parser for the subcommand. */
    method AddParser(name: Value, argmap: map<string, string>, options: Options) returns (p: ArgumentParser)
      modifies this`added
      ensures added == old(added) + [ParserRequest(name, argmap, options)]
      ensures fresh(p) && p.argmap == argmap && p.options == options
      ensures p.arguments == [] && p.defaults == map[]
    {
      added := added + [ParserRequest(name, argmap, options)];
      p := new ArgumentParser(NoMain, Some(argmap), options);
    }
  }

  /** `_SubparsersWrapper`: adds subcommands whose help comes from the handler's docstring. */
  class SubparsersWrapper {
    const delegate: SubparsersAction

    constructor (delegate: SubparsersAction)
      ensures this.delegate == delegate
    {
      this.delegate := delegate;
    }

    /**
     * `add_parser(func, name, **kwargs)`: fails on a function without a
     * docstring before asking argparse for anything; otherwise registers the
     * subcommand with the completed options and the docstring's argument map,
     * and sets the sub-parser's default `cmd` to the function.
     */
    method AddParser(func: Function, name: Value, kwargs: Options) returns (r: Result<ArgumentParser, Error>)
      modifies delegate`added
      ensures (func.doc.None? || func.doc.value == "") ==>
        r == Failure(if func.name.Some? then NoDocstring(func.name.value) else NoFunctionName)
        && delegate.added == old(delegate.added)
      ensures func.doc.Some? && func.doc.value != "" && !HasHeadline(func.doc.value) ==>
        r == Failure(MissingHeadline) && delegate.added == old(delegate.added)
      ensures func.doc.Some? && func.doc.value != "" && HasHeadline(func.doc.value) && "argmap" in kwargs ==>
        r == Failure(DuplicateArgmap) && delegate.added == old(delegate.added)
      ensures func.doc.Some? && func.doc.value != "" && HasHeadline(func.doc.value) && "argmap" !in kwargs ==>
        && r.Success? && fresh(r.value)
        && delegate.added == old(delegate.added) + [ParserRequest(
             CommandName(func, name), ParseDoc(func.doc.value).args,
             SubcommandOptions(kwargs, ParseDoc(func.doc.value)))]
        && r.value.argmap == ParseDoc(func.doc.value).args
        && r.value.defaults == map[Cmd := Callable(func)]
        && r.value.arguments == []
    {
      if func.doc.None? || func.doc.value == "" {
        return Failure(if func.name.Some? then NoDocstring(func.name.value) else NoFunctionName);
      }
      var doc := func.doc.value;
      if !HasHeadline(doc) {
        return Failure(MissingHeadline);
      }
      var info := ParseDoc(doc);
      var kw := kwargs;
      if Help !in kw || !Truthy(kw[Help]) {
        kw := kw[Help := Str(info.headline)];
      }
      if Description !in kw || !Truthy(kw[Description]) {
        kw := kw[Description := Str(info.description)];
      }
      if FormatterClass !in kw || !Truthy(kw[FormatterClass]) {
        kw := kw[FormatterClass := RawTextHelpFormatter];
      }
      if "argmap" in kw {
        return Failure(DuplicateArgmap);
      }
      var cmdName := CommandName(func, name);
      var res := delegate.AddParser(cmdName, info.args, kw);
      res.SetDefault(Cmd, Callable(func));
      return Success(res);
    }
  }
}
