/** From the user's command line to the arguments the server compiles with: what
    the client assembles and what the server's filter makes of it. */
module Pipeline {
  import opened Wrappers
  import opened Totals
  import opened Flags
  import opened Paths
  import opened ClientParser
  import opened ParserSummary
  import opened ArgumentFiles
  import S = ServerParser
  import O = ClientOptions

  datatype Compiler = Unknown | Clang | Gcc

  /** The target that is added for clang when the user gave none. */
  function AddedTarget(f: Fields, compiler: Compiler, buildTarget: string): seq<string> {
    if compiler.Clang? && f.target.None? then ["-target", buildTarget] else []
  }

  function Sent(f: Fields, compiler: Compiler, buildTarget: string): seq<string> {
    f.args + AddedTarget(f, compiler, buildTarget) + [f.modeArg]
  }

  /** The assembly of the two argument vectors, in place: first the one for the
      preprocessor, then the one that is sent. */
  method Assemble(f: Fields, compiler: Compiler, name: string, buildTarget: string)
    returns (fallback: bool, preprocess: seq<string>, sent: seq<string>, compilerName: string)
    requires f.canDistribute.Some?
    ensures fallback <==> f.canDistribute == Some(false)
    ensures !fallback ==> sent == Sent(f, compiler, buildTarget)
    ensures !fallback && compiler.Clang? && f.target.None? ==> sent == f.args + ["-target", buildTarget, f.modeArg]
    ensures !fallback && !(compiler.Clang? && f.target.None?) ==> sent == f.args + [f.modeArg]
    ensures !fallback ==> preprocess == sent[..|sent| - 1] + [f.infile, "-E"]
    ensures !fallback ==> compilerName == if compiler.Gcc? && ("g++" <= name || "gcc" <= name) then buildTarget + "-" + name else name
  {
    var args := f.args;
    preprocess, sent, compilerName := [], [], name;
    fallback := !f.canDistribute.value;
    if fallback {
      return;
    }
    if compiler.Clang? {
      if f.target.None? {
        args := args + ["-target"];
        args := args + [buildTarget];
      }
    } else if compiler.Gcc? {
      if "g++" <= name {
        compilerName := buildTarget + "-" + compilerName;
      } else if "gcc" <= name {
        compilerName := buildTarget + "-" + compilerName;
      }
    }
    ghost var before := args;
    args := args + [f.infile];
    args := args + ["-E"];
    preprocess := args;
    args := args[..|args| - 1];
    args := args[..|args| - 1];
    assert args == before;
    args := args + [f.modeArg];
    sent := args;
    assert sent[..|sent| - 1] == before;
  }

  // --- What should survive ---------------------------------------------------

  /** The user's own arguments for an item. */
  function Raw(item: Item): seq<string> {
    match item
    case Output(path) => ["-o", path]
    case OutputJoined(path) => ["-o" + path]
    case Mode(arg) => [arg]
    case XLang(value) => ["-x", value]
    case Target(value) => ["-target", value]
    case TargetJoined(arg) => [arg]
    case CppPair(arg, value) => [arg, value]
    case Input(path) => [path]
    case Plain(arg) => [arg]
  }

  /** Input files, output specifiers, modes and preprocessor options are dropped. */
  predicate Dropped(item: Item) {
    item.Output? || item.OutputJoined? || item.Mode? || item.Input? || item.CppPair? || (item.Plain? && SingleCpp(item.arg))
  }

  function Survivors(items: seq<Item>): seq<string> {
    if items == [] then [] else (if Dropped(items[0]) then [] else Raw(items[0])) + Survivors(items[1..])
  }

  lemma RawPair(arg: string, value: string)
    requires TakesValue(arg)
    ensures Raw(PairItem(arg, value)) == [arg, value]
  {
  }

  lemma RawSingle(files: Files, arg: string)
    ensures Raw(SingleItem(files, arg)) == [arg]
  {
    if "-o" <= arg {
      assert "-o" + arg[2..] == arg;
    }
  }

  /** The recognised items are the user's arguments with argument files expanded,
      in order and without loss. */
  lemma {:induction false} ItemsAreExpandedArguments(files: Files, rank: map<string, nat>, depth: nat, args: seq<string>)
    requires Read(files, rank, depth, args).end.None?
    ensures Flat(Read(files, rank, depth, args).items, Raw) == Inline(files, rank, depth, args)
    decreases depth, |args|
  {
    if args == [] {
    } else {
      ReadFirst(files, rank, depth, args);
      InlineFirst(files, rank, depth, args);
      if "@" <= args[0] {
        var path := args[0][1..];
        ReadFileFirst(files, rank, depth, args);
        ItemsAreExpandedArguments(files, rank, rank[path], FileArgs(files, path));
        ItemsAreExpandedArguments(files, rank, depth, args[1..]);
        FlatAppend(Read(files, rank, rank[path], FileArgs(files, path)).items, Read(files, rank, depth, args[1..]).items, Raw);
      } else if TakesValue(args[0]) {
        ReadPairFirst(files, rank, depth, args);
        ItemsAreExpandedArguments(files, rank, depth, args[2..]);
        RawPair(args[0], args[1]);
        FlatCons(PairItem(args[0], args[1]), Read(files, rank, depth, args[2..]).items, Raw);
      } else {
        ReadSingleFirst(files, rank, depth, args);
        ItemsAreExpandedArguments(files, rank, depth, args[1..]);
        RawSingle(files, args[0]);
        FlatCons(SingleItem(files, args[0]), Read(files, rank, depth, args[1..]).items, Raw);
      }
    }
  }

  function Expected(items: seq<Item>, f: Fields, compiler: Compiler, buildTarget: string): seq<string> {
    Survivors(items) + AddedTarget(f, compiler, buildTarget) + [f.modeArg]
  }

  /** The values that follow -target in the vector that is sent. */
  function TargetValues(items: seq<Item>): seq<string> {
    if items == [] then [] else (if items[0].Target? then [items[0].value] else []) + TargetValues(items[1..])
  }

  function AllTargets(items: seq<Item>, f: Fields, compiler: Compiler, buildTarget: string): seq<string> {
    TargetValues(items) + if compiler.Clang? && f.target.None? then [buildTarget] else []
  }

  ghost predicate AllInert(values: seq<string>) {
    forall k | 0 <= k < |values| :: Inert(values[k])
  }

  ghost predicate Undashed(values: seq<string>) {
    forall k | 0 <= k < |values| :: !("-" <= values[k])
  }

  // --- The server's view of one item -----------------------------------------

  lemma ScanOne(arg: string)
    requires Inert(arg)
    ensures S.Scan([arg]) == S.Kept([arg], arg == "-c")
  {
    assert [arg][1..] == [];
  }

  lemma ScanTwo(a: string, b: string)
    requires Inert(a) && Inert(b)
    ensures S.Scan([a, b]) == S.Kept([a, b], a == "-c" || b == "-c")
  {
    assert [a, b] == [a] + [b];
    ScanOne(a);
    ScanOne(b);
    S.ScanAppend([a], [b]);
  }

  lemma ScanItem(item: Item)
    requires ItemOk(item)
    requires item.XLang? ==> LanguageOfX(item.value) != NONE
    requires item.Target? ==> Inert(item.value)
    ensures S.Scan(Emit(item)) == S.Kept(if Dropped(item) then [] else Raw(item), item.Target? && item.value == "-c")
  {
    match item
    case XLang(value) =>
      KnownXIsUndashed(value);
      SpecialIsInert(value);
      SpecialIsInert("-x");
      ScanTwo("-x", value);
    case Target(value) =>
      SpecialIsInert("-target");
      ScanTwo("-target", value);
    case TargetJoined(arg) =>
      assert arg[0] == "--target="[0] && arg[1] == "--target="[1] && arg[2] == "--target="[2];
      SpecialIsInert(arg);
      ScanOne(arg);
    case CppPair(arg, value) =>
      assert [arg, value][2..] == [];
    case Plain(arg) =>
      if !SingleCpp(arg) {
        ScanOne(arg);
      } else {
        assert [arg][1..] == [];
      }
    case _ =>
  }

  ghost predicate Known(items: seq<Item>) {
    forall k | 0 <= k < |items| && items[k].XLang? :: LanguageOfX(items[k].value) != NONE
  }

  lemma {:induction false} ScanItems(items: seq<Item>)
    requires AllOk(items) && Known(items) && AllInert(TargetValues(items))
    ensures S.Scan(EmitAll(items)) == S.Kept(Survivors(items), "-c" in TargetValues(items))
  {
    if items == [] {
    } else {
      var item, rest := items[0], items[1..];
      var own := if item.Target? then [item.value] else [];
      assert TargetValues(items) == own + TargetValues(rest);
      forall k | 0 <= k < |TargetValues(rest)| ensures Inert(TargetValues(rest)[k]) {
        assert TargetValues(items)[|own| + k] == TargetValues(rest)[k];
      }
      if item.Target? {
        assert TargetValues(items)[0] == item.value;
      }
      ScanItem(item);
      ScanItems(rest);
      S.ScanAppend(Emit(item), EmitAll(rest));
    }
  }

  // --- The composition --------------------------------------------------------

  /** The parse of the user's arguments came to its end and is distributable. */
  ghost predicate Distributable(script: Script, f: Fields) {
    && script.end.None? && AllOk(script.items) && Known(script.items)
    && f.args == EmitAll(script.items) && f.target == LastTarget(script.items)
    && f.modeArg == LastMode(script.items) && IsMode(f.modeArg)
  }

  lemma AcceptedIsDistributable(files: Files, rank: map<string, nat>, depth: nat, args: seq<string>)
    requires Parse(files, rank, depth, args).Done?
    requires Parse(files, rank, depth, args).fields.canDistribute == Some(true)
    ensures Distributable(Read(files, rank, depth, args), Parse(files, rank, depth, args).fields)
  {
    SummaryOfParse(files, rank, depth, args);
    ReadItemsOk(files, rank, depth, args);
  }

  lemma ScanAdded(value: string)
    requires Inert(value)
    ensures S.Scan(["-target", value]) == S.Kept(["-target", value], value == "-c")
  {
    ScanItem(Target(value));
  }

  lemma ScanTail(value: Option<string>, mode: string)
    requires IsMode(mode) && (value.Some? ==> Inert(value.value))
    ensures var added := if value.Some? then ["-target", value.value] else [];
            S.Scan(added + [mode]) == S.Kept(added + [mode], mode == "-c" || value == Some("-c"))
  {
    SpecialIsInert(mode);
    ScanOne(mode);
    if value.Some? {
      ScanAdded(value.value);
      S.ScanAppend(["-target", value.value], [mode]);
    } else {
      assert [] + [mode] == [mode];
    }
  }

  function Extra(f: Fields, compiler: Compiler, buildTarget: string): Option<string> {
    if compiler.Clang? && f.target.None? then Some(buildTarget) else None
  }

  lemma InertParts(items: seq<Item>, f: Fields, compiler: Compiler, buildTarget: string)
    requires AllInert(AllTargets(items, f, compiler, buildTarget))
    ensures AllInert(TargetValues(items)) && (Extra(f, compiler, buildTarget).Some? ==> Inert(buildTarget))
    ensures "-c" in AllTargets(items, f, compiler, buildTarget) <==>
            "-c" in TargetValues(items) || Extra(f, compiler, buildTarget) == Some("-c")
  {
    var all := AllTargets(items, f, compiler, buildTarget);
    var mine := TargetValues(items);
    forall k | 0 <= k < |mine| ensures Inert(mine[k]) {
      assert all[k] == mine[k];
    }
    if Extra(f, compiler, buildTarget).Some? {
      assert all[|mine|] == buildTarget;
    }
  }

  /** With target values that the server's tables do not mention, the server keeps
      exactly what should survive. */
  lemma ScanSent(script: Script, f: Fields, compiler: Compiler, buildTarget: string)
    requires Distributable(script, f) && AllInert(AllTargets(script.items, f, compiler, buildTarget))
    ensures S.Scan(Sent(f, compiler, buildTarget)) ==
            S.Kept(Expected(script.items, f, compiler, buildTarget),
                   f.modeArg == "-c" || "-c" in AllTargets(script.items, f, compiler, buildTarget))
  {
    InertParts(script.items, f, compiler, buildTarget);
    ScanItems(script.items);
    ScanTail(Extra(f, compiler, buildTarget), f.modeArg);
    AppendParts(f.args, Survivors(script.items), AddedTarget(f, compiler, buildTarget), f.modeArg);
    S.ScanAppend(f.args, AddedTarget(f, compiler, buildTarget) + [f.modeArg]);
  }

  lemma AppendParts(a: seq<string>, b: seq<string>, added: seq<string>, mode: string)
    ensures a + (added + [mode]) == a + added + [mode] && b + (added + [mode]) == b + added + [mode]
  {
  }

  lemma {:induction false} TargetsSurvive(items: seq<Item>)
    ensures forall k | 0 <= k < |TargetValues(items)| :: TargetValues(items)[k] in Survivors(items)
  {
    if items == [] {
    } else {
      TargetsSurvive(items[1..]);
      if items[0].Target? {
        assert Raw(items[0])[1] == items[0].value;
      }
    }
  }

  /** Option survival, exactly: the server passes on the user's expanded arguments
      in order, minus what concerns input, output, mode and preprocessor, plus the
      added target and the mode, if and only if no value of a -target is itself an
      option that the server's tables mention. */
  lemma OptionsSurviveExactlyWhen(files: Files, rank: map<string, nat>, depth: nat, args: seq<string>,
                                  compiler: Compiler, buildTarget: string)
    requires Parse(files, rank, depth, args).Done?
    requires Parse(files, rank, depth, args).fields.canDistribute == Some(true)
    ensures var f := Parse(files, rank, depth, args).fields;
            var items := Read(files, rank, depth, args).items;
            (exists compile :: S.Scan(Sent(f, compiler, buildTarget)) == S.Kept(Expected(items, f, compiler, buildTarget), compile))
            <==> AllInert(AllTargets(items, f, compiler, buildTarget))
  {
    var f := Parse(files, rank, depth, args).fields;
    var script := Read(files, rank, depth, args);
    var all := AllTargets(script.items, f, compiler, buildTarget);
    var expected := Expected(script.items, f, compiler, buildTarget);
    AcceptedIsDistributable(files, rank, depth, args);
    if AllInert(all) {
      ScanSent(script, f, compiler, buildTarget);
    }
    if compile :| S.Scan(Sent(f, compiler, buildTarget)) == S.Kept(expected, compile) {
      S.KeptIsClean(Sent(f, compiler, buildTarget));
      TargetsSurvive(script.items);
      forall k | 0 <= k < |all| ensures Inert(all[k]) {
        assert all[k] in expected;
      }
    }
  }

  /** Acceptance, exactly: the server accepts a job that the client distributes, to
      compile it with what should survive, if and only if no -target value is an
      option that the server's tables mention and the final mode is -c (or -c is
      itself the value of a -target). */
  lemma AcceptedAsMeantExactlyWhen(files: Files, rank: map<string, nat>, depth: nat, args: seq<string>,
                                   compiler: Compiler, buildTarget: string)
    requires Parse(files, rank, depth, args).Done?
    requires Parse(files, rank, depth, args).fields.canDistribute == Some(true)
    ensures var f := Parse(files, rank, depth, args).fields;
            var items := Read(files, rank, depth, args).items;
            var all := AllTargets(items, f, compiler, buildTarget);
            S.Parse(Sent(f, compiler, buildTarget)) == S.Accepted(Expected(items, f, compiler, buildTarget))
            <==> AllInert(all) && (f.modeArg == "-c" || "-c" in all)
  {
    var f := Parse(files, rank, depth, args).fields;
    var script := Read(files, rank, depth, args);
    var expected := Expected(script.items, f, compiler, buildTarget);
    AcceptedIsDistributable(files, rank, depth, args);
    OptionsSurviveExactlyWhen(files, rank, depth, args, compiler, buildTarget);
    if AllInert(AllTargets(script.items, f, compiler, buildTarget)) {
      ScanSent(script, f, compiler, buildTarget);
    } else {
      assert S.Scan(Sent(f, compiler, buildTarget)) != S.Kept(expected, true);
    }
  }

  lemma UndashedAreInert(values: seq<string>)
    requires Undashed(values)
    ensures AllInert(values) && "-c" !in values
  {
    forall k | 0 <= k < |values| ensures Inert(values[k]) && values[k] != "-c" {
      UndashedIsInert(values[k]);
    }
  }

  /** Acceptance: for arguments that the client distributes, when no -target value
      begins with a dash, the server accepts iff the final mode is -c, and then
      compiles with what should survive. It never turns the job down for an
      undistributable or a dangling argument. */
  lemma ServerAcceptsExactlyWhen(files: Files, rank: map<string, nat>, depth: nat, args: seq<string>,
                                 compiler: Compiler, buildTarget: string)
    requires Parse(files, rank, depth, args).Done?
    requires Parse(files, rank, depth, args).fields.canDistribute == Some(true)
    requires Undashed(AllTargets(Read(files, rank, depth, args).items, Parse(files, rank, depth, args).fields, compiler, buildTarget))
    ensures var f := Parse(files, rank, depth, args).fields;
            S.Parse(Sent(f, compiler, buildTarget)) ==
            if f.modeArg == "-c" then S.Accepted(Expected(Read(files, rank, depth, args).items, f, compiler, buildTarget))
            else S.Rejected(S.ForLink)
  {
    var f := Parse(files, rank, depth, args).fields;
    var script := Read(files, rank, depth, args);
    var all := AllTargets(script.items, f, compiler, buildTarget);
    AcceptedIsDistributable(files, rank, depth, args);
    UndashedAreInert(all);
    ScanSent(script, f, compiler, buildTarget);
  }

  // --- The server's arguments, read the client's way -------------------------------

  /** Reading the item's own arguments recognises the item again. */
  ghost predicate ReadsBack(files: Files, item: Item) {
    var raw := Raw(item);
    && !Refused(raw[0]) && !("@" <= raw[0])
    && (if |raw| == 2 then TakesValue(raw[0]) && PairItem(raw[0], raw[1]) == item
        else !TakesValue(raw[0]) && SingleItem(files, raw[0]) == item)
  }

  ghost predicate AllReadBack(files: Files, items: seq<Item>) {
    forall k | 0 <= k < |items| :: ReadsBack(files, items[k])
  }

  lemma PairReadsBack(files: Files, arg: string, value: string)
    requires !Refused(arg) && !("@" <= arg) && TakesValue(arg)
    ensures ReadsBack(files, PairItem(arg, value))
  {
    RawPair(arg, value);
    hide Raw, PairItem, Refused, TakesValue;
  }

  lemma SingleReadsBack(files: Files, arg: string)
    requires !Refused(arg) && !("@" <= arg) && !TakesValue(arg)
    ensures ReadsBack(files, SingleItem(files, arg))
  {
    RawSingle(files, arg);
    hide Raw, SingleItem, Refused, TakesValue;
  }

  lemma ReadBackAppend(files: Files, a: seq<Item>, b: seq<Item>)
    requires AllReadBack(files, a) && AllReadBack(files, b)
    ensures AllReadBack(files, a + b)
  {
    hide ReadsBack;
  }

  lemma ReadBackOne(files: Files, item: Item)
    requires ReadsBack(files, item)
    ensures AllReadBack(files, [item])
  {
    hide ReadsBack;
  }

  /** Whatever the client recognises, it recognises again. */
  lemma {:induction false} ReadItemsReadBack(files: Files, rank: map<string, nat>, depth: nat, args: seq<string>)
    ensures AllReadBack(files, Read(files, rank, depth, args).items)
    decreases depth, |args|
  {
    hide Refused, TakesValue, ReadsBack, AllReadBack, PairItem, SingleItem;
    var items := Read(files, rank, depth, args).items;
    if items == [] {
      NothingReadsBack(files);
    } else if "@" <= args[0] {
      var path := args[0][1..];
      ReadItemsReadBack(files, rank, rank[path], FileArgs(files, path));
      ReadItemsReadBack(files, rank, depth, args[1..]);
      ReadBackAppend(files, Read(files, rank, rank[path], FileArgs(files, path)).items, Read(files, rank, depth, args[1..]).items);
    } else if TakesValue(args[0]) {
      ReadItemsReadBack(files, rank, depth, args[2..]);
      PairReadsBack(files, args[0], args[1]);
      ReadBackOne(files, PairItem(args[0], args[1]));
      ReadBackAppend(files, [PairItem(args[0], args[1])], Read(files, rank, depth, args[2..]).items);
    } else {
      ReadItemsReadBack(files, rank, depth, args[1..]);
      SingleReadsBack(files, args[0]);
      ReadBackOne(files, SingleItem(files, args[0]));
      ReadBackAppend(files, [SingleItem(files, args[0])], Read(files, rank, depth, args[1..]).items);
    }
  }

  lemma NothingReadsBack(files: Files)
    ensures AllReadBack(files, [])
  {
  }

  lemma ReadRawFirst(files: Files, rank: map<string, nat>, depth: nat, item: Item, rest: seq<string>)
    requires ReadsBack(files, item)
    ensures Read(files, rank, depth, Raw(item) + rest) == Cons(item, Read(files, rank, depth, rest))
  {
    var raw := Raw(item);
    var args := raw + rest;
    if |raw| == 2 {
      assert args[2..] == rest && args[0] == raw[0] && args[1] == raw[1];
      hide Raw, PairItem, Refused, TakesValue;
      ReadPairFirst(files, rank, depth, args);
    } else {
      assert args[1..] == rest && args[0] == raw[0];
      hide Raw, SingleItem, Refused, TakesValue;
      ReadSingleFirst(files, rank, depth, args);
    }
  }

  /** Round trip: written out and read again, items are the same. */
  lemma {:induction false} ReadOfRaw(files: Files, rank: map<string, nat>, depth: nat, items: seq<Item>)
    requires AllReadBack(files, items)
    ensures Read(files, rank, depth, Flat(items, Raw)) == Script(items, None)
  {
    hide ReadsBack, Raw;
    if items == [] {
    } else {
      assert AllReadBack(files, items[1..]);
      ReadOfRaw(files, rank, depth, items[1..]);
      ReadRawFirst(files, rank, depth, items[0], Flat(items[1..], Raw));
      assert [items[0]] + items[1..] == items;
    }
  }

  function KeptItems(items: seq<Item>): seq<Item> {
    if items == [] then [] else (if Dropped(items[0]) then [] else [items[0]]) + KeptItems(items[1..])
  }

  lemma {:induction false} KeptAreSurvivors(files: Files, items: seq<Item>)
    requires AllReadBack(files, items)
    ensures Flat(KeptItems(items), Raw) == Survivors(items) && AllReadBack(files, KeptItems(items))
    ensures LastTarget(KeptItems(items)) == LastTarget(items)
    ensures forall k | 0 <= k < |KeptItems(items)| :: !Dropped(KeptItems(items)[k])
  {
    if items == [] {
    } else {
      assert AllReadBack(files, items[1..]);
      KeptAreSurvivors(files, items[1..]);
      hide ReadsBack, Raw;
      if Dropped(items[0]) {
        assert KeptItems(items) == KeptItems(items[1..]) && Survivors(items) == Survivors(items[1..]);
      } else {
        FlatCons(items[0], KeptItems(items[1..]), Raw);
        assert KeptItems(items) == [items[0]] + KeptItems(items[1..]);
        assert KeptItems(items)[1..] == KeptItems(items[1..]);
      }
    }
  }

  /** The items of what the server compiles with: the ones kept, a target if one was
      added, and the mode. */
  function ServerItems(items: seq<Item>, f: Fields, compiler: Compiler, buildTarget: string): seq<Item> {
    KeptItems(items) + (if compiler.Clang? && f.target.None? then [Target(buildTarget)] else []) + [Mode(f.modeArg)]
  }

  lemma {:induction false} LastOfAppend(a: seq<Item>, b: seq<Item>)
    ensures LastTarget(a + b) == if LastTarget(b).Some? then LastTarget(b) else LastTarget(a)
    ensures LastMode(a + b) == if LastMode(b) != "" then LastMode(b) else LastMode(a)
  {
    if a == [] {
      assert a + b == b;
    } else {
      LastOfAppend(a[1..], b);
      assert (a + b)[0] == a[0] && (a + b)[1..] == a[1..] + b;
    }
  }

  lemma AddedReadBack(files: Files, mode: string, buildTarget: string)
    requires IsMode(mode)
    ensures AllReadBack(files, [Mode(mode)]) && AllReadBack(files, [Target(buildTarget)])
  {
    O.ModeIsSingle(files, mode);
    O.SpecialPair("-target");
    O.PairsMean("-target", buildTarget);
    hide *;
    SingleReadsBack(files, mode);
    PairReadsBack(files, "-target", buildTarget);
    ReadBackOne(files, Mode(mode));
    ReadBackOne(files, Target(buildTarget));
  }

  lemma AddedIs(mode: string, buildTarget: string)
    requires IsMode(mode)
    ensures Flat([Mode(mode)], Raw) == [mode] && Flat([Target(buildTarget)], Raw) == ["-target", buildTarget]
    ensures LastMode([Mode(mode)]) == mode && LastTarget([Mode(mode)]) == None && LastMode([Target(buildTarget)]) == ""
    ensures LastTarget([Target(buildTarget)]) == Some(buildTarget)
  {
    FlatCons(Mode(mode), [], Raw);
    FlatCons(Target(buildTarget), [], Raw);
    FlatNothing(Raw);
    hide Flat;
    assert [Mode(mode)] + [] == [Mode(mode)] && [Target(buildTarget)] + [] == [Target(buildTarget)];
    assert [Mode(mode)][1..] == [] && [Target(buildTarget)][1..] == [];
  }

  lemma ServerItemsAreExpected(files: Files, items: seq<Item>, f: Fields, compiler: Compiler, buildTarget: string)
    requires AllReadBack(files, items) && IsMode(f.modeArg)
    ensures AllReadBack(files, ServerItems(items, f, compiler, buildTarget))
    ensures Flat(ServerItems(items, f, compiler, buildTarget), Raw) == Expected(items, f, compiler, buildTarget)
    ensures LastMode(ServerItems(items, f, compiler, buildTarget)) == f.modeArg
    ensures LastTarget(ServerItems(items, f, compiler, buildTarget)) ==
            if compiler.Clang? && f.target.None? then Some(buildTarget) else LastTarget(items)
  {
    var added := if compiler.Clang? && f.target.None? then [Target(buildTarget)] else [];
    KeptAreSurvivors(files, items);
    AddedReadBack(files, f.modeArg, buildTarget);
    AddedIs(f.modeArg, buildTarget);
    NothingReadsBack(files);
    hide AllReadBack, Raw, Flat, KeptItems, Survivors, LastMode, LastTarget;
    ReadBackAppend(files, KeptItems(items), added);
    ReadBackAppend(files, KeptItems(items) + added, [Mode(f.modeArg)]);
    FlatAppend(KeptItems(items), added, Raw);
    FlatAppend(KeptItems(items) + added, [Mode(f.modeArg)], Raw);
    FlatNothing(Raw);
    LastOfAppend(KeptItems(items), added);
    LastOfAppend(KeptItems(items) + added, [Mode(f.modeArg)]);
    LastOfNothing();
  }

  lemma LastOfNothing()
    ensures LastTarget([]) == None && LastMode([]) == ""
  {
  }

  /** What the server compiles with, read the way the client reads: options that are
      neither input, output nor for the preprocessor; the user's mode; and the user's
      last target, or for clang without one the build target. */
  lemma ServerCompilesAsMeant(files: Files, rank: map<string, nat>, depth: nat, args: seq<string>, any: nat,
                              compiler: Compiler, buildTarget: string)
    requires Parse(files, rank, depth, args).Done?
    requires Parse(files, rank, depth, args).fields.canDistribute == Some(true)
    requires var f := Parse(files, rank, depth, args).fields;
             AllInert(AllTargets(Read(files, rank, depth, args).items, f, compiler, buildTarget))
    ensures var f := Parse(files, rank, depth, args).fields;
            var scanned := S.Scan(Sent(f, compiler, buildTarget));
            && scanned.Kept?
            && var script := Read(files, rank, any, scanned.args);
               && script.end.None? && LastMode(script.items) == f.modeArg
               && LastTarget(script.items) == (if compiler.Clang? && f.target.None? then Some(buildTarget) else f.target)
               && script.items == KeptItems(Read(files, rank, depth, args).items)
                                  + (if compiler.Clang? && f.target.None? then [Target(buildTarget)] else []) + [Mode(f.modeArg)]
  {
    var f := Parse(files, rank, depth, args).fields;
    var script := Read(files, rank, depth, args);
    AcceptedIsDistributable(files, rank, depth, args);
    ScanSent(script, f, compiler, buildTarget);
    ReadItemsReadBack(files, rank, depth, args);
    ServerItemsAreExpected(files, script.items, f, compiler, buildTarget);
    hide Parse, Read, AllReadBack, Raw, Expected, Sent;
    ReadOfRaw(files, rank, any, ServerItems(script.items, f, compiler, buildTarget));
  }

  lemma SentTail(f: Fields, compiler: Compiler, buildTarget: string)
    ensures Sent(f, compiler, buildTarget)[..|f.args|] == f.args
    ensures Sent(f, compiler, buildTarget)[|f.args|..] ==
            (if compiler.Clang? && f.target.None? then ["-target", buildTarget] else []) + [f.modeArg]
  {
    Regroup(f.args, AddedTarget(f, compiler, buildTarget), [f.modeArg]);
  }

  /** What the client adds, read the way it reads the user's arguments. */
  lemma AddedReadsAsMeant(files: Files, rank: map<string, nat>, depth: nat, f: Fields, compiler: Compiler, buildTarget: string)
    requires IsMode(f.modeArg)
    ensures Sent(f, compiler, buildTarget)[..|f.args|] == f.args
    ensures Read(files, rank, depth, Sent(f, compiler, buildTarget)[|f.args|..]) ==
            Script((if compiler.Clang? && f.target.None? then [Target(buildTarget)] else []) + [Mode(f.modeArg)], None)
  {
    var added := if compiler.Clang? && f.target.None? then [Target(buildTarget)] else [];
    AddedReadBack(files, f.modeArg, buildTarget);
    AddedIs(f.modeArg, buildTarget);
    NothingReadsBack(files);
    SentTail(f, compiler, buildTarget);
    hide AllReadBack, AddedTarget, Raw, Flat, Read, Sent;
    ReadBackAppend(files, added, [Mode(f.modeArg)]);
    FlatAppend(added, [Mode(f.modeArg)], Raw);
    FlatNothing(Raw);
    ReadOfRaw(files, rank, depth, added + [Mode(f.modeArg)]);
  }

  // --- A value that breaks the step between the parsers ----------------------------

  const COMPILE: string := "-c"
  const TARGET: string := "-target"

  function Retargeted(f: Fields, value: string): Fields {
    f.(args := f.args + [TARGET, value], target := Some(value))
  }

  lemma TargetTakesValue()
    ensures !Refused(TARGET) && TakesValue(TARGET) && !("@" <= TARGET) && Inert(TARGET)
    ensures forall value :: PairItem(TARGET, value) == Target(value)
  {
    hide NoDist, MultiCpp, SingleCpp;
    SpecialIsInert(TARGET);
  }

  lemma ReadTarget(files: Files, rank: map<string, nat>, depth: nat, value: string)
    ensures Read(files, rank, depth, [TARGET, value]) == Script([Target(value)], None)
  {
    TargetTakesValue();
    hide Refused, TakesValue, PairItem, TARGET;
    ReadPairFirst(files, rank, depth, [TARGET, value]);
    assert [TARGET, value][2..] == [];
    assert [Target(value)] + [] == [Target(value)];
  }

  lemma PlayTarget(script: Script, value: string)
    requires Play(script, BLANK).Done?
    ensures Play(Then(script, Script([Target(value)], None)), BLANK) == Done(Retargeted(Play(script, BLANK).fields, value))
  {
    var f := Play(script, BLANK).fields;
    PlayThen(script, Script([Target(value)], None), BLANK);
    assert [Target(value)] + [] == [Target(value)];
    PlayCons(Target(value), Script([], None), f);
  }

  lemma ConcludeTarget(f: Fields, value: string)
    requires Conclude(f).Done?
    ensures Conclude(Retargeted(f, value)) == Done(Retargeted(Conclude(f).fields, value))
  {
  }

  /** What the parser makes of a further -target at the end of the arguments. */
  lemma ParseWithTarget(files: Files, rank: map<string, nat>, depth: nat, args: seq<string>, value: string)
    requires Parse(files, rank, depth, args).Done?
    ensures Parse(files, rank, depth, args + [TARGET, value]) == Done(Retargeted(Parse(files, rank, depth, args).fields, value))
  {
    hide TARGET;
    var script := Read(files, rank, depth, args);
    ReadAppend(files, rank, depth, args, [TARGET, value]);
    ReadTarget(files, rank, depth, value);
    PlayTarget(script, value);
    ConcludeTarget(Play(script, BLANK).fields, value);
  }

  /** A last -target value that is a two-part preprocessor option makes the server
      turn the job down, whatever the mode: the option swallows the mode. So it goes
      for every command line that would otherwise be distributed and accepted, if
      the preprocessor, which the client runs first, puts up with the target. */
  lemma DashedTargetBreaksStep(files: Files, rank: map<string, nat>, depth: nat, args: seq<string>, value: string,
                               compiler: Compiler, buildTarget: string)
    requires Parse(files, rank, depth, args).Done?
    requires Parse(files, rank, depth, args).fields.canDistribute == Some(true)
    requires Undashed(TargetValues(Read(files, rank, depth, args).items)) && MultiCpp(value)
    ensures var outcome := Parse(files, rank, depth, args + [TARGET, value]);
            && outcome.Done? && outcome.fields.canDistribute == Some(true)
            && S.Parse(Sent(outcome.fields, compiler, buildTarget)) == S.Rejected(S.ForLink)
  {
    var f := Parse(files, rank, depth, args).fields;
    var items := Read(files, rank, depth, args).items;
    AcceptedIsDistributable(files, rank, depth, args);
    ParseWithTarget(files, rank, depth, args, value);
    UndashedAreInert(TargetValues(items));
    SwallowsMode(items, value, f.modeArg);
    SentRetargeted(f, value, compiler, buildTarget);
  }

  lemma SentRetargeted(f: Fields, value: string, compiler: Compiler, buildTarget: string)
    ensures Sent(Retargeted(f, value), compiler, buildTarget) == f.args + (Emit(Target(value)) + [f.modeArg])
  {
    assert f.args + Emit(Target(value)) + [] + [f.modeArg] == f.args + (Emit(Target(value)) + [f.modeArg]);
  }

  lemma SwallowsMode(items: seq<Item>, value: string, mode: string)
    requires AllOk(items) && Known(items) && AllInert(TargetValues(items)) && "-c" !in TargetValues(items)
    requires MultiCpp(value)
    ensures S.Parse(EmitAll(items) + (Emit(Target(value)) + [mode])) == S.Rejected(S.ForLink)
  {
    ScanItems(items);
    TailForm(value, mode);
    SwallowsAfter(value, mode);
    ScanThen(EmitAll(items), [TARGET] + [value, mode]);
  }

  lemma ScanThen(a: seq<string>, b: seq<string>)
    requires S.Scan(a).Kept? && S.Scan(b).Kept?
    ensures S.Scan(a + b).Kept? && S.Scan(a + b).compile == (S.Scan(a).compile || S.Scan(b).compile)
  {
    S.ScanAppend(a, b);
  }

  lemma TailForm(value: string, mode: string)
    ensures Emit(Target(value)) + [mode] == [TARGET] + [value, mode]
  {
  }

  lemma SwallowsAfter(value: string, mode: string)
    requires MultiCpp(value)
    ensures S.Scan([TARGET] + [value, mode]) == S.Kept([TARGET], false)
  {
    TargetIsKept();
    ScanSwallows(value, mode);
    hide TARGET;
    S.ScanAppend([TARGET], [value, mode]);
  }

  lemma TargetIsKept()
    ensures S.Scan([TARGET]) == S.Kept([TARGET], false)
  {
    hide Inert;
    TargetTakesValue();
    ScanOne(TARGET);
  }

  lemma ScanSwallows(value: string, mode: string)
    requires MultiCpp(value)
    ensures S.Scan([value, mode]) == S.Kept([], false)
  {
    MultiIsNotRefused(value);
    assert [value, mode][2..] == [];
  }

  /** A source file that the client recognises when it is named alone. */
  predicate IsSource(files: Files, file: string) {
    && file in files && Listed(EXTENSIONS, Extension(file)) && FileName(file) != "conftest.c"
    && ' ' !in file && !("-" <= file) && !("@" <= file)
  }

  lemma CompileIsMode(files: Files)
    ensures !Refused(COMPILE) && !("@" <= COMPILE) && !TakesValue(COMPILE) && SingleItem(files, COMPILE) == Mode(COMPILE)
  {
    hide NoDist, MultiCpp, SingleCpp, Listed;
    SpecialIsInert(COMPILE);
  }

  lemma SourceIsInput(files: Files, file: string)
    requires IsSource(files, file)
    ensures !Refused(file) && !("@" <= file) && !TakesValue(file) && SingleItem(files, file) == Input(file)
  {
    hide NoDist, MultiCpp, SingleCpp, Listed, Extension;
    assert Dashed(file) ==> "-" <= file;
    SpecialIsInert(file);
  }

  lemma ReadSingles(files: Files, rank: map<string, nat>, depth: nat, a: string, b: string)
    requires !Refused(a) && !("@" <= a) && !TakesValue(a) && !Refused(b) && !("@" <= b) && !TakesValue(b)
    ensures Read(files, rank, depth, [a, b]) == Script([SingleItem(files, a), SingleItem(files, b)], None)
  {
    hide Refused, TakesValue, SingleItem;
    assert [a, b][1..] == [b] && [b][1..] == [];
    ReadSingleFirst(files, rank, depth, [a, b]);
    ReadSingleFirst(files, rank, depth, [b]);
    assert [SingleItem(files, a)] + [SingleItem(files, b)] == [SingleItem(files, a), SingleItem(files, b)];
  }

  lemma ReadCompile(files: Files, rank: map<string, nat>, depth: nat, file: string)
    requires IsSource(files, file)
    ensures Read(files, rank, depth, [COMPILE, file]) == Script([Mode(COMPILE), Input(file)], None)
  {
    hide Read, Refused, TakesValue, SingleItem;
    CompileIsMode(files);
    SourceIsInput(files, file);
    ReadSingles(files, rank, depth, COMPILE, file);
  }

  /** The fields after -c and a source file. */
  function CompileFields(file: string): Fields {
    BLANK.(modeArg := COMPILE, canDistribute := Some(true), infile := file, language := LanguageOfExtension(Extension(file)))
  }

  lemma PlayCompile(file: string)
    ensures Play(Script([Mode(COMPILE), Input(file)], None), BLANK) == Done(CompileFields(file))
  {
    hide Extension, LanguageOfExtension;
    assert [Mode(COMPILE)] + [Input(file)] == [Mode(COMPILE), Input(file)];
    PlayCons(Mode(COMPILE), Script([Input(file)], None), BLANK);
    assert [Input(file)] + [] == [Input(file)];
    PlayCons(Input(file), Script([], None), BLANK.(modeArg := COMPILE, canDistribute := Some(true)));
  }

  lemma ConcludeCompile(files: Files, file: string)
    requires IsSource(files, file)
    ensures var outcome := Conclude(CompileFields(file));
            && outcome.Done? && outcome.fields.canDistribute == Some(true)
            && outcome.fields.modeArg == COMPILE && outcome.fields.target == None
  {
    hide Extension, LanguageOfExtension, Listed, Stem;
    InputHasLanguage(Input(file));
  }

  lemma ParseIs(files: Files, rank: map<string, nat>, depth: nat, args: seq<string>, script: Script, f: Fields)
    requires Read(files, rank, depth, args) == script && Play(script, BLANK) == Done(f)
    ensures Parse(files, rank, depth, args) == Conclude(f)
  {
  }

  lemma ParseCompile(files: Files, rank: map<string, nat>, depth: nat, file: string)
    requires IsSource(files, file)
    ensures Parse(files, rank, depth, [COMPILE, file]) == Conclude(CompileFields(file))
    ensures TargetValues(Read(files, rank, depth, [COMPILE, file]).items) == []
  {
    hide Read, IsSource, Play, Conclude, CompileFields;
    ReadCompile(files, rank, depth, file);
    PlayCompile(file);
    ParseIs(files, rank, depth, [COMPILE, file], Script([Mode(COMPILE), Input(file)], None), CompileFields(file));
    NoTargets(COMPILE, file);
  }

  lemma NoTargets(mode: string, file: string)
    ensures TargetValues([Mode(mode), Input(file)]) == []
  {
    assert [Input(file)][1..] == [] && [Mode(mode), Input(file)][1..] == [Input(file)];
    assert TargetValues([Input(file)]) == [] + TargetValues([]);
    assert TargetValues([Mode(mode), Input(file)]) == [] + TargetValues([Input(file)]);
  }

  /** For every source file and every two-part preprocessor option: -c with the file is accepted, but with the option as a -target added
      it is distributed and turned down. */
  lemma CompileThenTarget(files: Files, rank: map<string, nat>, depth: nat, file: string, value: string,
                          compiler: Compiler, buildTarget: string)
    requires IsSource(files, file) && MultiCpp(value) && !("-" <= buildTarget)
    ensures var plain := Parse(files, rank, depth, [COMPILE, file]);
            plain.Done? && S.Parse(Sent(plain.fields, compiler, buildTarget)).Accepted?
    ensures var aimed := Parse(files, rank, depth, [COMPILE, file] + [TARGET, value]);
            && aimed.Done? && aimed.fields.canDistribute == Some(true)
            && S.Parse(Sent(aimed.fields, compiler, buildTarget)) == S.Rejected(S.ForLink)
  {
    ParseCompile(files, rank, depth, file);
    ConcludeCompile(files, file);
    hide IsSource, Parse, Read, MultiCpp, Conclude, CompileFields, Sent, Expected, TARGET;
    ServerAcceptsExactlyWhen(files, rank, depth, [COMPILE, file], compiler, buildTarget);
    DashedTargetBreaksStep(files, rank, depth, [COMPILE, file], value, compiler, buildTarget);
  }

  const SOURCE: string := "a.c"
  const INCLUDE: string := "-I"

  lemma SourceName()
    ensures FileName(SOURCE) == SOURCE && Extension(SOURCE) == ".c"
  {
    assert After(SOURCE, '/') == 0;
    assert After(SOURCE, '.') == 2;
  }

  lemma SourceIsOne(files: Files)
    requires SOURCE in files
    ensures IsSource(files, SOURCE)
  {
    SourceName();
    ListedIsMember(EXTENSIONS, ".c");
    assert EXTENSIONS[0] == ".c";
    hide Extension, FileName, Listed, EXTENSIONS;
    assert SOURCE[0] == 'a' && SOURCE[1] == '.' && SOURCE[2] == 'c';
  }

  lemma IncludeIsMulti()
    ensures MultiCpp(INCLUDE)
  {
    assert MULTI_CPP[6] == INCLUDE;
    ListedIsMember(MULTI_CPP, INCLUDE);
  }

  /** For example, -c a.c is accepted, but -c a.c -target -I is turned down. */
  lemma IncludeSwallows(files: Files, rank: map<string, nat>, depth: nat, compiler: Compiler, buildTarget: string)
    requires SOURCE in files && !("-" <= buildTarget)
    ensures var plain := Parse(files, rank, depth, [COMPILE, SOURCE]);
            plain.Done? && S.Parse(Sent(plain.fields, compiler, buildTarget)).Accepted?
    ensures var aimed := Parse(files, rank, depth, [COMPILE, SOURCE] + [TARGET, INCLUDE]);
            aimed.Done? && S.Parse(Sent(aimed.fields, compiler, buildTarget)) == S.Rejected(S.ForLink)
  {
    SourceIsOne(files);
    IncludeIsMulti();
    hide IsSource, Parse, Sent, MultiCpp, SOURCE, INCLUDE, TARGET, COMPILE;
    CompileThenTarget(files, rank, depth, SOURCE, INCLUDE, compiler, buildTarget);
  }
}
