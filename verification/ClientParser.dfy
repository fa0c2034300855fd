/** The client's argument parser. What it recognises is described by a script of
    items; running the script on the parser's fields gives the result. */
module ClientParser {
  import opened Wrappers
  import opened Flags
  import opened Paths
  import Tokens

  datatype Failure =
    | Fallback
    | MissingFile(arg: string)
    | LastArgument(arg: string)
    | ManyOutputs
    | ManyInputs
    | NoInput
    | NoLanguage
    | Unranked

  /** The regular files and what they contain. */
  type Files = map<string, string>

  datatype Item =
    | Output(path: string)
    | OutputJoined(path: string)
    | Mode(arg: string)
    | XLang(value: string)
    | Target(value: string)
    | TargetJoined(arg: string)
    | CppPair(arg: string, value: string)
    | Input(path: string)
    | Plain(arg: string)

  /** What a run over some arguments recognises, and how it ends. */
  datatype Script = Script(items: seq<Item>, end: Option<Failure>)

  function Then(a: Script, b: Script): Script {
    if a.end.Some? then a else Script(a.items + b.items, b.end)
  }

  function Stop(f: Failure): Script {
    Script([], Some(f))
  }

  function Cons(item: Item, rest: Script): Script {
    Script([item] + rest.items, rest.end)
  }

  predicate TakesValue(arg: string) {
    arg == "-o" || arg == "-x" || arg == "-target" || MultiCpp(arg)
  }

  predicate Refused(arg: string) {
    ' ' in arg || NoDist(arg)
  }

  function PairItem(arg: string, value: string): Item {
    if arg == "-o" then Output(value)
    else if arg == "-x" then XLang(value)
    else if arg == "-target" then Target(value)
    else CppPair(arg, value)
  }

  function SingleItem(files: Files, arg: string): Item {
    if "-o" <= arg then OutputJoined(arg[2..])
    else if IsMode(arg) then Mode(arg)
    else if "--target=" <= arg then TargetJoined(arg)
    else if arg in files && Listed(EXTENSIONS, Extension(arg)) then Input(arg)
    else Plain(arg)
  }

  /** The arguments that an argument file contributes. */
  function FileArgs(files: Files, path: string): seq<string>
    requires path in files
  {
    Tokens.Words(files[path])
  }

  /** A file may only be entered below the depth at which it was referred to;
      `rank` assigns the depths. */
  ghost function Read(files: Files, rank: map<string, nat>, depth: nat, args: seq<string>): Script
    decreases depth, |args|
  {
    if args == [] then Script([], None)
    else
      var arg := args[0];
      if Refused(arg) then Stop(Fallback)
      else if "@" <= arg then
        var path := arg[1..];
        if path !in files then Stop(MissingFile(arg))
        else if path !in rank || rank[path] >= depth then Stop(Unranked)
        else Then(Read(files, rank, rank[path], FileArgs(files, path)), Read(files, rank, depth, args[1..]))
      else if TakesValue(arg) then
        if |args| == 1 then Stop(LastArgument(arg))
        else Cons(PairItem(arg, args[1]), Read(files, rank, depth, args[2..]))
      else
        Cons(SingleItem(files, arg), Read(files, rank, depth, args[1..]))
  }

  /** The ranks are a witness that no argument file leads back to itself. */
  ghost predicate Ranked(files: Files, rank: map<string, nat>, depth: nat, args: seq<string>) {
    Read(files, rank, depth, args).end != Some(Unranked)
  }

  // --- The parser's fields ---------------------------------------------------

  datatype Fields = Fields(
    args: seq<string>, modeArg: string, infile: string, outfile: string,
    target: Option<string>, canDistribute: Option<bool>, language: Language)

  datatype Outcome = Done(fields: Fields) | Failed(why: Failure)

  const BLANK: Fields := Fields([], "", "", "", None, None, NONE)

  function Apply(item: Item, f: Fields): Outcome {
    match item
    case Output(path) => if f.outfile != "" then Failed(ManyOutputs) else Done(f.(outfile := path))
    case OutputJoined(path) => Done(f.(outfile := path))
    case Mode(arg) =>
      Done(f.(modeArg := arg, canDistribute := if f.canDistribute.None? then Some(true) else f.canDistribute))
    case XLang(value) =>
      var g := f.(args := f.args + ["-x", value]);
      Done(if LanguageOfX(value) == NONE then g.(canDistribute := Some(false)) else g.(language := LanguageOfX(value)))
    case Target(value) => Done(f.(args := f.args + ["-target", value], target := Some(value)))
    case TargetJoined(arg) => Done(f.(args := f.args + [arg], target := Some(if |arg| >= 9 then arg[9..] else "")))
    case CppPair(arg, value) => Done(f.(args := f.args + [arg, value]))
    case Input(path) =>
      if f.infile != "" then Failed(ManyInputs)
      else Done(f.(infile := path,
                   language := if f.language == NONE then LanguageOfExtension(Extension(path)) else f.language))
    case Plain(arg) => Done(f.(args := f.args + [arg]))
  }

  function ApplyAll(items: seq<Item>, f: Fields): Outcome {
    if items == [] then Done(f)
    else match Apply(items[0], f)
         case Failed(why) => Failed(why)
         case Done(g) => ApplyAll(items[1..], g)
  }

  function Play(script: Script, f: Fields): Outcome {
    match ApplyAll(script.items, f)
    case Failed(why) => Failed(why)
    case Done(g) => if script.end.Some? then Failed(script.end.value) else Done(g)
  }

  /** What the constructor makes of the fields after the run. */
  function Conclude(f: Fields): Outcome {
    var can := f.canDistribute == Some(true) && FileName(f.infile) != "conftest.c";
    var g := f.(canDistribute := Some(can));
    if !can then Done(g)
    else if g.infile == "" then Failed(NoInput)
    else
      var h := g.(outfile := if g.outfile == "" then Stem(g.infile) + ".o" else g.outfile);
      if h.language == NONE then Failed(NoLanguage) else Done(h)
  }

  ghost function Parse(files: Files, rank: map<string, nat>, depth: nat, args: seq<string>): Outcome {
    match Play(Read(files, rank, depth, args), BLANK)
    case Failed(why) => Failed(why)
    case Done(f) => Conclude(f)
  }

  lemma {:induction false} ApplyAppend(a: seq<Item>, b: seq<Item>, f: Fields)
    ensures ApplyAll(a + b, f) ==
            match ApplyAll(a, f)
            case Failed(why) => Failed(why)
            case Done(g) => ApplyAll(b, g)
  {
    if a == [] {
      assert a + b == b;
    } else {
      assert (a + b)[1..] == a[1..] + b;
      if Apply(a[0], f).Done? {
        ApplyAppend(a[1..], b, Apply(a[0], f).fields);
      }
    }
  }

  lemma PlayThen(a: Script, b: Script, f: Fields)
    ensures Play(Then(a, b), f) ==
            match Play(a, f)
            case Failed(why) => Failed(why)
            case Done(g) => Play(b, g)
  {
    ApplyAppend(a.items, b.items, f);
  }

  lemma PlayCons(item: Item, rest: Script, f: Fields)
    ensures Play(Cons(item, rest), f) ==
            match Apply(item, f)
            case Failed(why) => Failed(why)
            case Done(g) => Play(rest, g)
  {
    assert ([item] + rest.items)[1..] == rest.items;
  }

  lemma ReadAt(files: Files, rank: map<string, nat>, depth: nat, args: seq<string>, i: nat)
    requires i < |args|
    ensures var arg := args[i];
            Read(files, rank, depth, args[i..]) ==
            if Refused(arg) then Stop(Fallback)
            else if "@" <= arg then
              if arg[1..] !in files then Stop(MissingFile(arg))
              else if arg[1..] !in rank || rank[arg[1..]] >= depth then Stop(Unranked)
              else Then(Read(files, rank, rank[arg[1..]], FileArgs(files, arg[1..])), Read(files, rank, depth, args[i + 1..]))
            else if TakesValue(arg) then
              if i + 1 == |args| then Stop(LastArgument(arg))
              else Cons(PairItem(arg, args[i + 1]), Read(files, rank, depth, args[i + 2..]))
            else Cons(SingleItem(files, arg), Read(files, rank, depth, args[i + 1..]))
  {
    assert args[i..][1..] == args[i + 1..];
    if i + 1 < |args| {
      assert args[i..][2..] == args[i + 2..];
    }
  }

  /** The options that the client tests for first are not preprocessor pairs. */
  lemma SpecialTakesNoValue(arg: string)
    ensures IsMode(arg) || "--target=" <= arg || ("-o" <= arg && arg != "-o") ==> !TakesValue(arg)
    ensures arg == "-o" || arg == "-x" || arg == "-target" ==> !MultiCpp(arg)
  {
    MultiCppShape(arg);
    if "--target=" <= arg {
      assert arg[0] == "--target="[0] && arg[1] == "--target="[1] && arg[2] == "--target="[2];
    }
    if "-o" <= arg {
      assert arg[0] == "-o"[0] && arg[1] == "-o"[1];
    }
  }

  // --- The code --------------------------------------------------------------

  class Parser {
    var args: seq<string>
    var modeArg: string
    var infile: string
    var outfile: string
    var target: Option<string>
    var canDistribute: Option<bool>
    var language: Language

    ghost function State(): Fields
      reads this
    {
      Fields(args, modeArg, infile, outfile, target, canDistribute, language)
    }

    constructor ()
      ensures State() == BLANK
    {
      args, modeArg, infile, outfile := [], "", "", "";
      target, canDistribute, language := None, None, NONE;
    }

    /** None if the call returned, otherwise what it threw. */
    ghost predicate Matches(thrown: Option<Failure>, outcome: Outcome)
      reads this
    {
      match outcome
      case Done(f) => thrown == None && State() == f
      case Failed(why) => thrown == Some(why)
    }

    method CheckInputFileCandidate(files: Files, file: string) returns (thrown: Option<Failure>)
      requires file in files
      modifies this
      ensures Matches(thrown, Apply(if Listed(EXTENSIONS, Extension(file)) then Input(file) else Plain(file), old(State())))
    {
      thrown := None;
      var extension := Extension(file);
      if Listed(EXTENSIONS, extension) {
        if infile != "" {
          return Some(ManyInputs);
        }
        if language == NONE {
          if Listed(EXTENSIONS_C, extension) {
            language := C;
          } else if Listed(EXTENSIONS_CXX, extension) {
            language := CXX;
          }
        }
        infile := file;
      } else {
        args := args + [file];
      }
    }

    method ReadArgsFile(files: Files, ghost rank: map<string, nat>, path: string) returns (thrown: Option<Failure>)
      requires path in files && path in rank
      requires Ranked(files, rank, rank[path], FileArgs(files, path))
      modifies this
      ensures Matches(thrown, Play(Read(files, rank, rank[path], FileArgs(files, path)), old(State())))
      decreases rank[path], 1, 0
    {
      var fileArgs := Tokens.ReadWords(files[path]);
      thrown := ParseArgs(files, rank, rank[path], fileArgs);
    }

    /** The branches of the main loop after the argument files: `next` is the
        following argument, if there is one, and `used` whether it was consumed. */
    method TakeOption(files: Files, arg: string, next: Option<string>) returns (thrown: Option<Failure>, used: bool)
      modifies this
      ensures used <==> TakesValue(arg) && next.Some?
      ensures Matches(thrown,
                if !TakesValue(arg) then Apply(SingleItem(files, arg), old(State()))
                else if next.None? then Failed(LastArgument(arg))
                else Apply(PairItem(arg, next.value), old(State())))
    {
      SpecialTakesNoValue(arg);
      thrown, used := None, false;
      if arg == "-o" {
        if next.None? {
          return Some(LastArgument(arg)), false;
        }
        if outfile != "" {
          return Some(ManyOutputs), true;
        }
        outfile, used := next.value, true;
      } else if "-o" <= arg {
        outfile := arg[2..];
      } else if arg == "-c" || arg == "-S" {
        modeArg := arg;
        if canDistribute.None? {
          canDistribute := Some(true);
        }
      } else if arg == "-x" {
        if next.None? {
          return Some(LastArgument(arg)), false;
        }
        args, used := args + [arg, next.value], true;
        if Listed(X_ARGS_C, next.value) {
          language := C;
        } else if Listed(X_ARGS_CXX, next.value) {
          language := CXX;
        } else {
          canDistribute := Some(false);
        }
      } else if arg == "-target" {
        if next.None? {
          return Some(LastArgument(arg)), false;
        }
        args, target, used := args + [arg, next.value], Some(next.value), true;
      } else if "--target=" <= arg {
        target := Some(arg[9..]);
        args := args + [arg];
      } else if MultiCpp(arg) {
        if next.None? {
          return Some(LastArgument(arg)), false;
        }
        args, used := args + [arg, next.value], true;
      } else if arg in files {
        thrown := CheckInputFileCandidate(files, arg);
      } else {
        args := args + [arg];
      }
    }

    /** The tests that make the client give up on an argument at once. */
    method Refuses(arg: string) returns (refused: bool)
      ensures refused <==> Refused(arg)
    {
      if ' ' in arg {
        return true;
      }
      if Listed(SINGLE_NO_DIST, arg) {
        return true;
      }
      if PrefixListed(SINGLE_NO_DIST_STARTS, arg) {
        return true;
      }
      return Listed(MULTI_NO_DIST, arg);
    }

    /** One turn of the main loop; `next` is where the following turn begins. */
    method ParseOne(files: Files, ghost rank: map<string, nat>, ghost depth: nat, input: seq<string>, i: nat)
      returns (thrown: Option<Failure>, next: nat)
      requires i < |input| && Ranked(files, rank, depth, input[i..])
      modifies this
      ensures i < next <= |input|
      ensures thrown.Some? ==> Play(Read(files, rank, depth, input[i..]), old(State())) == Failed(thrown.value)
      ensures thrown.None? ==>
                && Play(Read(files, rank, depth, input[i..]), old(State())) == Play(Read(files, rank, depth, input[next..]), State())
                && Ranked(files, rank, depth, input[next..])
      decreases depth, 0, |input| - i, 0
    {
      var arg := input[i];
      ReadAt(files, rank, depth, input, i);
      next := i + 1;
      var refused := Refuses(arg);
      if refused {
        return Some(Fallback), next;
      }
      ghost var before := State();
      if "@" <= arg {
        if arg[1..] !in files {
          return Some(MissingFile(arg)), next;
        }
        PlayThen(Read(files, rank, rank[arg[1..]], FileArgs(files, arg[1..])), Read(files, rank, depth, input[i + 1..]), before);
        thrown := ReadArgsFile(files, rank, arg[1..]);
      } else {
        var value := if i + 1 < |input| then Some(input[i + 1]) else None;
        if TakesValue(arg) && value.Some? {
          PlayCons(PairItem(arg, value.value), Read(files, rank, depth, input[i + 2..]), before);
        } else if !TakesValue(arg) {
          PlayCons(SingleItem(files, arg), Read(files, rank, depth, input[i + 1..]), before);
        }
        var used;
        thrown, used := TakeOption(files, arg, value);
        if used {
          next := i + 2;
        }
      }
    }

    method ParseArgs(files: Files, ghost rank: map<string, nat>, ghost depth: nat, input: seq<string>)
      returns (thrown: Option<Failure>)
      requires Ranked(files, rank, depth, input)
      modifies this
      ensures Matches(thrown, Play(Read(files, rank, depth, input), old(State())))
      decreases depth, 0, |input| + 1
    {
      var i := 0;
      assert input[0..] == input;
      while i < |input|
        invariant 0 <= i <= |input|
        invariant Play(Read(files, rank, depth, input[i..]), State()) == Play(Read(files, rank, depth, input), old(State()))
        invariant Ranked(files, rank, depth, input[i..])
        decreases |input| - i
      {
        thrown, i := ParseOne(files, rank, depth, input, i);
        if thrown.Some? {
          return;
        }
      }
      return None;
    }

    /** The constructor of the client's parser. */
    method Construct(files: Files, ghost rank: map<string, nat>, ghost depth: nat, input: seq<string>)
      returns (thrown: Option<Failure>)
      requires State() == BLANK && Ranked(files, rank, depth, input)
      modifies this
      ensures Matches(thrown, Parse(files, rank, depth, input))
    {
      thrown := ParseArgs(files, rank, depth, input);
      if thrown.Some? {
        return;
      }
      if canDistribute.None? {
        canDistribute := Some(false);
      }
      if infile != "" && FileName(infile) == "conftest.c" {
        canDistribute := Some(false);
      }
      if !canDistribute.value {
        return None;
      }
      if infile == "" {
        return Some(NoInput);
      }
      if outfile == "" {
        outfile := Stem(infile) + ".o";
      }
      if language == NONE {
        return Some(NoLanguage);
      }
      return None;
    }
  }
}
