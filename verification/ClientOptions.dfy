/** What the client's parser does with one more argument, for every kind of argument
    as the user writes it. */
module ClientOptions {
  import opened Wrappers
  import opened Flags
  import opened Paths
  import opened ClientParser
  import opened ArgumentFiles
  import Tokens

  /** What the main loop makes of the arguments, before the constructor concludes. */
  ghost function Parsed(files: Files, rank: map<string, nat>, depth: nat, args: seq<string>): Outcome {
    Play(Read(files, rank, depth, args), BLANK)
  }

  lemma GoesOn(files: Files, rank: map<string, nat>, depth: nat, args: seq<string>, more: seq<string>, f: Fields)
    requires Parsed(files, rank, depth, args) == Done(f)
    ensures Parsed(files, rank, depth, args + more) == Play(Read(files, rank, depth, more), f)
  {
    ReadAppend(files, rank, depth, args, more);
    PlayThen(Read(files, rank, depth, args), Read(files, rank, depth, more), BLANK);
  }

  lemma NothingMore(item: Item, f: Fields)
    ensures Play(Cons(item, Script([], None)), f) == Apply(item, f)
  {
    PlayCons(item, Script([], None), f);
  }

  lemma OneMore(files: Files, rank: map<string, nat>, depth: nat, args: seq<string>, arg: string, f: Fields)
    requires Parsed(files, rank, depth, args) == Done(f)
    requires !Refused(arg) && !("@" <= arg) && !TakesValue(arg)
    ensures Parsed(files, rank, depth, args + [arg]) == Apply(SingleItem(files, arg), f)
  {
    hide Refused, TakesValue, SingleItem, Apply;
    GoesOn(files, rank, depth, args, [arg], f);
    assert [arg][1..] == [];
    ReadSingleFirst(files, rank, depth, [arg]);
    NothingMore(SingleItem(files, arg), f);
  }

  lemma TwoMore(files: Files, rank: map<string, nat>, depth: nat, args: seq<string>, arg: string, value: string, f: Fields)
    requires Parsed(files, rank, depth, args) == Done(f)
    requires !Refused(arg) && !("@" <= arg) && TakesValue(arg)
    ensures Parsed(files, rank, depth, args + [arg, value]) == Apply(PairItem(arg, value), f)
    ensures Parsed(files, rank, depth, args + [arg]) == Failed(LastArgument(arg))
  {
    hide Refused, TakesValue, PairItem, Apply;
    GoesOn(files, rank, depth, args, [arg, value], f);
    GoesOn(files, rank, depth, args, [arg], f);
    assert [arg, value][2..] == [];
    ReadPairFirst(files, rank, depth, [arg, value]);
    NothingMore(PairItem(arg, value), f);
  }

  // --- Options --------------------------------------------------------------------

  lemma SpecialPair(option: string)
    requires option == "-o" || option == "-x" || option == "-target"
    ensures !Refused(option) && !("@" <= option) && TakesValue(option)
  {
    hide NoDist, MultiCpp, SingleCpp;
    assert option[0] == '-' && LooksSpecial(option);
    SpecialIsInert(option);
    NoSpaceInSpecial(option);
  }

  lemma NoSpaceInSpecial(option: string)
    requires option == "-o" || option == "-x" || option == "-target"
    ensures ' ' !in option
  {
  }

  lemma PairsMean(option: string, value: string)
    ensures PairItem("-o", value) == Output(value) && PairItem("-x", value) == XLang(value)
    ensures PairItem("-target", value) == Target(value)
    ensures option != "-o" && option != "-x" && option != "-target" ==> PairItem(option, value) == CppPair(option, value)
  {
    assert "-x" != "-o" && "-target" != "-o" && "-target" != "-x";
  }

  lemma OutputApplies(path: string, f: Fields)
    ensures Apply(Output(path), f) == if f.outfile != "" then Failed(ManyOutputs) else Done(f.(outfile := path))
    ensures Apply(OutputJoined(path), f) == Done(f.(outfile := path))
  {
  }

  /** -o with a path sets the output, once; without one it is an error. */
  lemma OutputOption(files: Files, rank: map<string, nat>, depth: nat, args: seq<string>, path: string, f: Fields)
    requires Parsed(files, rank, depth, args) == Done(f)
    ensures Parsed(files, rank, depth, args + ["-o", path]) ==
            if f.outfile != "" then Failed(ManyOutputs) else Done(f.(outfile := path))
    ensures Parsed(files, rank, depth, args + ["-o"]) == Failed(LastArgument("-o"))
  {
    hide *;
    SpecialPair("-o");
    PairsMean("-o", path);
    OutputApplies(path, f);
    TwoMore(files, rank, depth, args, "-o", path, f);
  }

  lemma JoinedOutput(files: Files, path: string)
    requires path != "" && ' ' !in path
    ensures var arg := "-o" + path;
            && !Refused(arg) && !("@" <= arg) && !TakesValue(arg) && SingleItem(files, arg) == OutputJoined(path)
  {
    var arg := "-o" + path;
    assert arg[0] == '-' && arg[1] == 'o' && arg[2..] == path;
    SpecialIsInert(arg);
    SpecialTakesNoValue(arg);
    hide NoDist, MultiCpp, SingleCpp;
  }

  /** -o with the path joined sets the output, even if there is one. */
  lemma JoinedOutputOption(files: Files, rank: map<string, nat>, depth: nat, args: seq<string>, path: string, f: Fields)
    requires Parsed(files, rank, depth, args) == Done(f) && path != "" && ' ' !in path
    ensures Parsed(files, rank, depth, args + ["-o" + path]) == Done(f.(outfile := path))
  {
    hide *;
    JoinedOutput(files, path);
    OutputApplies(path, f);
    OneMore(files, rank, depth, args, "-o" + path, f);
  }

  lemma ModeIsSingle(files: Files, mode: string)
    requires mode == "-c" || mode == "-S"
    ensures !Refused(mode) && !("@" <= mode) && !TakesValue(mode) && SingleItem(files, mode) == Mode(mode)
  {
    SpecialIsInert(mode);
    SpecialTakesNoValue(mode);
    hide NoDist, MultiCpp, SingleCpp;
  }

  lemma ModeApplies(mode: string, f: Fields)
    ensures Apply(Mode(mode), f) ==
            Done(f.(modeArg := mode, canDistribute := if f.canDistribute.None? then Some(true) else f.canDistribute))
  {
  }

  /** -c and -S set the mode, and have the job distributed unless that was ruled out. */
  lemma ModeOption(files: Files, rank: map<string, nat>, depth: nat, args: seq<string>, mode: string, f: Fields)
    requires Parsed(files, rank, depth, args) == Done(f) && (mode == "-c" || mode == "-S")
    ensures Parsed(files, rank, depth, args + [mode]) ==
            Done(f.(modeArg := mode, canDistribute := if f.canDistribute.None? then Some(true) else f.canDistribute))
  {
    hide *;
    ModeIsSingle(files, mode);
    ModeApplies(mode, f);
    OneMore(files, rank, depth, args, mode, f);
  }

  lemma LanguageApplies(value: string, f: Fields)
    ensures value == "c" || value == "cpp-output" ==>
              Apply(XLang(value), f) == Done(f.(args := f.args + ["-x", value], language := C))
    ensures value == "c++" || value == "c++-cpp-output" ==>
              Apply(XLang(value), f) == Done(f.(args := f.args + ["-x", value], language := CXX))
    ensures value != "c" && value != "cpp-output" && value != "c++" && value != "c++-cpp-output" ==>
              Apply(XLang(value), f) == Done(f.(args := f.args + ["-x", value], canDistribute := Some(false)))
  {
    LanguageNames(value);
    hide LanguageOfX;
  }

  /** -x is passed on, and sets the language if it is one of those known, but rules
      distribution out if not. */
  lemma LanguageOption(files: Files, rank: map<string, nat>, depth: nat, args: seq<string>, value: string, f: Fields)
    requires Parsed(files, rank, depth, args) == Done(f)
    ensures value == "c" || value == "cpp-output" ==>
              Parsed(files, rank, depth, args + ["-x", value]) == Done(f.(args := f.args + ["-x", value], language := C))
    ensures value == "c++" || value == "c++-cpp-output" ==>
              Parsed(files, rank, depth, args + ["-x", value]) == Done(f.(args := f.args + ["-x", value], language := CXX))
    ensures value != "c" && value != "cpp-output" && value != "c++" && value != "c++-cpp-output" ==>
              Parsed(files, rank, depth, args + ["-x", value]) ==
              Done(f.(args := f.args + ["-x", value], canDistribute := Some(false)))
    ensures Parsed(files, rank, depth, args + ["-x"]) == Failed(LastArgument("-x"))
  {
    hide *;
    SpecialPair("-x");
    PairsMean("-x", value);
    LanguageApplies(value, f);
    TwoMore(files, rank, depth, args, "-x", value, f);
  }

  lemma LanguageNames(value: string)
    ensures LanguageOfX(value) == C <==> value == "c" || value == "cpp-output"
    ensures LanguageOfX(value) == CXX <==> value == "c++" || value == "c++-cpp-output"
  {
    ListedIsMember(X_ARGS_C, value);
    ListedIsMember(X_ARGS_CXX, value);
    hide Listed;
    assert X_ARGS_C == ["c", "cpp-output"] && X_ARGS_CXX == ["c++", "c++-cpp-output"];
    assert "c" != "c++" && "c" != "c++-cpp-output" && "cpp-output" != "c++" && "cpp-output"[1] == 'p' && "c++-cpp-output"[1] == '+';
  }

  lemma TargetApplies(value: string, f: Fields)
    ensures Apply(Target(value), f) == Done(f.(args := f.args + ["-target", value], target := Some(value)))
  {
  }

  /** -target with its value is passed on and sets the target. */
  lemma TargetOption(files: Files, rank: map<string, nat>, depth: nat, args: seq<string>, value: string, f: Fields)
    requires Parsed(files, rank, depth, args) == Done(f)
    ensures Parsed(files, rank, depth, args + ["-target", value]) ==
            Done(f.(args := f.args + ["-target", value], target := Some(value)))
    ensures Parsed(files, rank, depth, args + ["-target"]) == Failed(LastArgument("-target"))
  {
    hide *;
    SpecialPair("-target");
    PairsMean("-target", value);
    TargetApplies(value, f);
    TwoMore(files, rank, depth, args, "-target", value, f);
  }

  lemma JoinedTarget(files: Files, value: string)
    requires ' ' !in value
    ensures var arg := "--target=" + value;
            && !Refused(arg) && !("@" <= arg) && !TakesValue(arg) && SingleItem(files, arg) == TargetJoined(arg)
  {
    var arg := "--target=" + value;
    assert arg[0] == '-' && arg[1] == '-' && arg[2] == 't';
    SpecialIsInert(arg);
    SpecialTakesNoValue(arg);
    NoSpaceInTarget(value);
    hide NoDist, MultiCpp, SingleCpp;
    assert !("-o" <= arg) && !IsMode(arg);
  }

  lemma NoSpaceInTarget(value: string)
    requires ' ' !in value
    ensures ' ' !in "--target=" + value
  {
    assert ' ' !in "--target=";
  }

  lemma JoinedTargetApplies(value: string, f: Fields)
    ensures Apply(TargetJoined("--target=" + value), f) ==
            Done(f.(args := f.args + ["--target=" + value], target := Some(value)))
  {
    assert ("--target=" + value)[9..] == value;
  }

  /** So does --target= with its value joined. */
  lemma JoinedTargetOption(files: Files, rank: map<string, nat>, depth: nat, args: seq<string>, value: string, f: Fields)
    requires Parsed(files, rank, depth, args) == Done(f) && ' ' !in value
    ensures Parsed(files, rank, depth, args + ["--target=" + value]) ==
            Done(f.(args := f.args + ["--target=" + value], target := Some(value)))
  {
    hide *;
    JoinedTarget(files, value);
    JoinedTargetApplies(value, f);
    OneMore(files, rank, depth, args, "--target=" + value, f);
  }

  lemma PairApplies(option: string, value: string, f: Fields)
    ensures Apply(CppPair(option, value), f) == Done(f.(args := f.args + [option, value]))
  {
  }

  /** A two-part preprocessor option is passed on with its value. */
  lemma PairOption(files: Files, rank: map<string, nat>, depth: nat, args: seq<string>, option: string, value: string, f: Fields)
    requires Parsed(files, rank, depth, args) == Done(f) && option in MULTI_CPP
    ensures Parsed(files, rank, depth, args + [option, value]) == Done(f.(args := f.args + [option, value]))
    ensures Parsed(files, rank, depth, args + [option]) == Failed(LastArgument(option))
  {
    hide *;
    PairFacts(option);
    PairsMean(option, value);
    PairApplies(option, value, f);
    TwoMore(files, rank, depth, args, option, value, f);
  }

  lemma PairFacts(option: string)
    requires option in MULTI_CPP
    ensures !Refused(option) && !("@" <= option) && TakesValue(option)
    ensures option != "-o" && option != "-x" && option != "-target"
  {
    TablesMean(option);
    MultiIsNotRefused(option);
    MultiCppShape(option);
    NoSpaceInPairs(option);
    hide NoDist, SingleCpp, MultiCpp, MULTI_CPP;
    assert option[0] == '-';
  }

  lemma NoSpaceInPairs(option: string)
    requires option in MULTI_CPP
    ensures ' ' !in option && option != "-o" && option != "-x" && option != "-target"
  {
    MultiCppEntries();
    assert forall t | t in MULTI_CPP :: ' ' !in t;
    hide MULTI_CPP;
    assert LooksSpecial("-o") && LooksSpecial("-x") && LooksSpecial("-target");
  }

  // --- Everything else ------------------------------------------------------------

  /** The arguments that the client gives up on at once. */
  predicate GivesUpOn(arg: string) {
    ' ' in arg || arg in SINGLE_NO_DIST || arg in MULTI_NO_DIST || BeginsWithOneOf(SINGLE_NO_DIST_STARTS, arg)
  }

  predicate IsOption(arg: string) {
    || arg == "-c" || arg == "-S" || arg == "-x" || arg == "-target" || "-o" <= arg || "--target=" <= arg
    || arg in MULTI_CPP
  }

  lemma RefusedMeans(arg: string)
    ensures Refused(arg) <==> GivesUpOn(arg)
  {
    TablesMean(arg);
    hide NoDist, SINGLE_NO_DIST, MULTI_NO_DIST, SINGLE_NO_DIST_STARTS, BeginsWithOneOf;
  }

  /** Whatever comes before and after, such an argument ends the parse. */
  lemma RefusedArgument(files: Files, rank: map<string, nat>, depth: nat, args: seq<string>, arg: string, more: seq<string>, f: Fields)
    requires Parsed(files, rank, depth, args) == Done(f) && GivesUpOn(arg)
    ensures Parsed(files, rank, depth, args + ([arg] + more)) == Failed(Fallback)
  {
    RefusedMeans(arg);
    hide GivesUpOn, Refused;
    GoesOn(files, rank, depth, args, [arg] + more, f);
  }

  lemma OtherIsSingle(files: Files, arg: string)
    requires !GivesUpOn(arg) && !IsOption(arg)
    ensures !Refused(arg) && !TakesValue(arg)
    ensures SingleItem(files, arg) ==
            if arg in files && Extension(arg) in EXTENSIONS_C + EXTENSIONS_CXX then Input(arg) else Plain(arg)
  {
    RefusedMeans(arg);
    TablesMean(arg);
    ExtensionsMean(Extension(arg));
    hide GivesUpOn, Refused, NoDist, SingleCpp, MultiCpp, Extension, Listed, EXTENSIONS, EXTENSIONS_C, EXTENSIONS_CXX, MULTI_CPP;
  }

  lemma InputApplies(arg: string, f: Fields)
    requires Extension(arg) in EXTENSIONS_C + EXTENSIONS_CXX
    ensures Apply(Input(arg), f) ==
            if f.infile != "" then Failed(ManyInputs)
            else Done(f.(infile := arg,
                         language := if f.language != NONE then f.language
                                     else if Extension(arg) in EXTENSIONS_C then C else CXX))
  {
    ExtensionsMean(Extension(arg));
    hide Extension, Listed, LanguageOfExtension, EXTENSIONS, EXTENSIONS_C, EXTENSIONS_CXX;
  }

  lemma PlainApplies(arg: string, f: Fields)
    ensures Apply(Plain(arg), f) == Done(f.(args := f.args + [arg]))
  {
  }

  /** An argument that is no option: an existing file with an input extension is the
      input, once, and has its language assumed unless one is set; anything else is
      passed on. */
  lemma OtherArgument(files: Files, rank: map<string, nat>, depth: nat, args: seq<string>, arg: string, f: Fields)
    requires Parsed(files, rank, depth, args) == Done(f)
    requires !GivesUpOn(arg) && !IsOption(arg) && !("@" <= arg)
    ensures arg in files && Extension(arg) in EXTENSIONS_C + EXTENSIONS_CXX ==>
              Parsed(files, rank, depth, args + [arg]) ==
              if f.infile != "" then Failed(ManyInputs)
              else Done(f.(infile := arg,
                           language := if f.language != NONE then f.language
                                       else if Extension(arg) in EXTENSIONS_C then C else CXX))
    ensures !(arg in files && Extension(arg) in EXTENSIONS_C + EXTENSIONS_CXX) ==>
              Parsed(files, rank, depth, args + [arg]) == Done(f.(args := f.args + [arg]))
  {
    hide *;
    OtherIsSingle(files, arg);
    OneMore(files, rank, depth, args, arg, f);
    if arg in files && Extension(arg) in EXTENSIONS_C + EXTENSIONS_CXX {
      InputApplies(arg, f);
    } else {
      PlainApplies(arg, f);
    }
  }

  lemma ExtensionsMean(ext: string)
    ensures Listed(EXTENSIONS, ext) <==> ext in EXTENSIONS_C + EXTENSIONS_CXX
    ensures LanguageOfExtension(ext) == if ext in EXTENSIONS_C then C else if ext in EXTENSIONS_CXX then CXX else NONE
  {
    KnownExtension(ext);
    ListedIsMember(EXTENSIONS_C, ext);
    ListedIsMember(EXTENSIONS_CXX, ext);
  }

  /** A reference to a file has the words of the file parsed, with the fields as they
      are; without the file it is an error. */
  lemma FileArgument(files: Files, rank: map<string, nat>, depth: nat, args: seq<string>, path: string, f: Fields)
    requires Parsed(files, rank, depth, args) == Done(f) && !GivesUpOn("@" + path)
    ensures path !in files ==> Parsed(files, rank, depth, args + ["@" + path]) == Failed(MissingFile("@" + path))
    ensures path in files && path in rank && rank[path] < depth ==>
              Parsed(files, rank, depth, args + ["@" + path]) ==
              Play(Read(files, rank, rank[path], Tokens.Words(files[path])), f)
  {
    var arg: string := "@" + path;
    assert arg[1..] == path && [arg][1..] == [];
    RefusedMeans(arg);
    hide GivesUpOn, Refused;
    GoesOn(files, rank, depth, args, [arg], f);
    if path in files && path in rank && rank[path] < depth {
      ReadFileFirst(files, rank, depth, [arg]);
      ThenNothingMore(Read(files, rank, rank[path], FileArgs(files, path)));
    }
  }

  lemma ThenNothingMore(a: Script)
    ensures Then(a, Script([], None)) == a
  {
    assert a.items + [] == a.items;
  }

  /** What the constructor makes of the fields at the end. */
  lemma AtTheEnd(files: Files, rank: map<string, nat>, depth: nat, args: seq<string>, f: Fields)
    requires Parsed(files, rank, depth, args) == Done(f)
    ensures f.canDistribute != Some(true) || FileName(f.infile) == "conftest.c" ==>
              Parse(files, rank, depth, args) == Done(f.(canDistribute := Some(false)))
    ensures f.canDistribute == Some(true) && FileName(f.infile) != "conftest.c" ==>
              Parse(files, rank, depth, args) ==
              if f.infile == "" then Failed(NoInput)
              else if f.language == NONE then Failed(NoLanguage)
              else Done(if f.outfile == "" then f.(outfile := Stem(f.infile) + ".o") else f)
  {
  }
}
