/** What a successful run of the client's parser comes to, read off the
    recognised items without following the run. */
module ParserSummary {
  import opened Wrappers
  import opened Flags
  import opened Paths
  import opened ClientParser

  predicate HasMode(items: seq<Item>) {
    exists k :: 0 <= k < |items| && items[k].Mode?
  }

  /** Some -x names a language that is not recognised. */
  predicate HasUnknownX(items: seq<Item>) {
    exists k :: 0 <= k < |items| && items[k].XLang? && LanguageOfX(items[k].value) == NONE
  }

  /** The language of the last -x that is recognised. */
  function LastX(items: seq<Item>): Language {
    if items == [] then NONE
    else if LastX(items[1..]) != NONE then LastX(items[1..])
    else if items[0].XLang? then LanguageOfX(items[0].value)
    else NONE
  }

  function InputOf(items: seq<Item>): string {
    if items == [] then "" else if items[0].Input? then items[0].path else InputOf(items[1..])
  }

  function LastMode(items: seq<Item>): string {
    if items == [] then ""
    else if LastMode(items[1..]) != "" then LastMode(items[1..])
    else if items[0].Mode? then items[0].arg
    else ""
  }

  function LastTarget(items: seq<Item>): Option<string> {
    if items == [] then None
    else if LastTarget(items[1..]).Some? then LastTarget(items[1..])
    else if items[0].Target? then Some(items[0].value)
    else if items[0].TargetJoined? then Some(if |items[0].arg| >= 9 then items[0].arg[9..] else "")
    else None
  }

  /** The output path that the specifiers leave, when `before` was set already. */
  function OutputAfter(items: seq<Item>, before: string): string {
    if items == [] then before
    else OutputAfter(items[1..], if items[0].Output? || items[0].OutputJoined? then items[0].path else before)
  }

  /** No second input, and no separate -o once an output is known; a joined -o may
      override one. */
  ghost predicate Unambiguous(items: seq<Item>) {
    && (forall j, k | 0 <= j < k < |items| :: !(items[j].Input? && items[k].Input?))
    && (forall k | 0 <= k < |items| && items[k].Output? :: OutputAfter(items[..k], "") == "")
  }

  /** The arguments that the parser passes on for an item. */
  function Emit(item: Item): seq<string> {
    match item
    case XLang(value) => ["-x", value]
    case Target(value) => ["-target", value]
    case TargetJoined(arg) => [arg]
    case CppPair(arg, value) => [arg, value]
    case Plain(arg) => [arg]
    case _ => []
  }

  function EmitAll(items: seq<Item>): seq<string> {
    if items == [] then [] else Emit(items[0]) + EmitAll(items[1..])
  }

  predicate ItemOk(item: Item) {
    match item
    case Mode(arg) => IsMode(arg)
    case TargetJoined(arg) => "--target=" <= arg
    case CppPair(arg, _) => MultiCpp(arg) && !NoDist(arg)
    case Input(path) => Listed(EXTENSIONS, Extension(path))
    case Plain(arg) => !NoDist(arg) && !TakesValue(arg) && !IsMode(arg)
    case _ => true
  }

  ghost predicate AllOk(items: seq<Item>) {
    forall k | 0 <= k < |items| :: ItemOk(items[k])
  }

  lemma PairItemOk(arg: string, value: string)
    requires !Refused(arg) && TakesValue(arg)
    ensures ItemOk(PairItem(arg, value))
  {
  }

  lemma SingleItemOk(files: Files, arg: string)
    requires !Refused(arg) && !TakesValue(arg)
    ensures ItemOk(SingleItem(files, arg))
  {
  }

  lemma OkAppend(a: seq<Item>, b: seq<Item>)
    requires AllOk(a) && AllOk(b)
    ensures AllOk(a + b)
  {
  }

  lemma OkCons(item: Item, items: seq<Item>)
    requires ItemOk(item) && AllOk(items)
    ensures AllOk([item] + items)
  {
  }

  /** Nothing that is recognised is refused or, outside a pair, takes a value. */
  lemma {:induction false} ReadItemsOk(files: Files, rank: map<string, nat>, depth: nat, args: seq<string>)
    ensures AllOk(Read(files, rank, depth, args).items)
    decreases depth, |args|
  {
    hide NoDist, MultiCpp, ItemOk, AllOk, PairItem, SingleItem;
    var items := Read(files, rank, depth, args).items;
    if items == [] {
      NothingOk();
    } else if "@" <= args[0] {
      var path := args[0][1..];
      ReadItemsOk(files, rank, rank[path], FileArgs(files, path));
      ReadItemsOk(files, rank, depth, args[1..]);
      OkAppend(Read(files, rank, rank[path], FileArgs(files, path)).items, Read(files, rank, depth, args[1..]).items);
    } else if TakesValue(args[0]) {
      ReadItemsOk(files, rank, depth, args[2..]);
      PairItemOk(args[0], args[1]);
      OkCons(PairItem(args[0], args[1]), Read(files, rank, depth, args[2..]).items);
    } else {
      ReadItemsOk(files, rank, depth, args[1..]);
      SingleItemOk(files, args[0]);
      OkCons(SingleItem(files, args[0]), Read(files, rank, depth, args[1..]).items);
    }
  }

  lemma NothingOk()
    ensures AllOk([])
  {
  }

  lemma {:induction false} AppliedArgs(items: seq<Item>, f: Fields)
    requires ApplyAll(items, f).Done?
    ensures ApplyAll(items, f).fields.args == f.args + EmitAll(items)
  {
    if items == [] {
    } else {
      var g := Apply(items[0], f).fields;
      AppliedArgs(items[1..], g);
      AppliesEmit(items[0], f);
      assert f.args + Emit(items[0]) + EmitAll(items[1..]) == f.args + (Emit(items[0]) + EmitAll(items[1..]));
    }
  }

  lemma AppliesEmit(item: Item, f: Fields)
    requires Apply(item, f).Done?
    ensures Apply(item, f).fields.args == f.args + Emit(item)
  {
  }

  lemma {:induction false} AppliedTarget(items: seq<Item>, f: Fields)
    requires ApplyAll(items, f).Done?
    ensures ApplyAll(items, f).fields.target == if LastTarget(items).Some? then LastTarget(items) else f.target
  {
    if items == [] {
    } else {
      AppliedTarget(items[1..], Apply(items[0], f).fields);
    }
  }

  lemma {:induction false} AppliedMode(items: seq<Item>, f: Fields)
    requires ApplyAll(items, f).Done? && AllOk(items)
    ensures ApplyAll(items, f).fields.modeArg == if LastMode(items) != "" then LastMode(items) else f.modeArg
    ensures HasMode(items) <==> LastMode(items) != ""
    ensures LastMode(items) != "" ==> IsMode(LastMode(items))
  {
    if items == [] {
    } else {
      AppliedMode(items[1..], Apply(items[0], f).fields);
      SplitExists(items);
    }
  }

  lemma SplitExists(items: seq<Item>)
    requires items != []
    ensures HasMode(items) <==> items[0].Mode? || HasMode(items[1..])
    ensures HasUnknownX(items) <==> (items[0].XLang? && LanguageOfX(items[0].value) == NONE) || HasUnknownX(items[1..])
  {
    var tail := items[1..];
    assert forall k :: 0 <= k < |tail| ==> tail[k] == items[k + 1];
    if HasMode(tail) {
      var k :| 0 <= k < |tail| && tail[k].Mode?;
      assert items[k + 1].Mode?;
    }
    if HasUnknownX(tail) {
      var k :| 0 <= k < |tail| && tail[k].XLang? && LanguageOfX(tail[k].value) == NONE;
      assert items[k + 1].XLang?;
    }
    assert forall k :: 0 < k < |items| ==> items[k] == tail[k - 1];
  }

  lemma {:induction false} AppliedDecision(items: seq<Item>, f: Fields)
    requires ApplyAll(items, f).Done?
    ensures ApplyAll(items, f).fields.canDistribute ==
            if HasUnknownX(items) then Some(false)
            else if f.canDistribute.None? && HasMode(items) then Some(true)
            else f.canDistribute
  {
    if items == [] {
    } else {
      AppliedDecision(items[1..], Apply(items[0], f).fields);
      SplitExists(items);
    }
  }

  lemma InputHasLanguage(item: Item)
    requires item.Input? && ItemOk(item)
    ensures item.path != "" && LanguageOfExtension(Extension(item.path)) != NONE
  {
    KnownExtension(Extension(item.path));
    NoEmptyExtension(Extension(item.path));
  }

  lemma {:induction false} AppliedInput(items: seq<Item>, f: Fields)
    requires ApplyAll(items, f).Done? && AllOk(items)
    ensures ApplyAll(items, f).fields.infile == if f.infile != "" then f.infile else InputOf(items)
    ensures f.infile != "" ==> InputOf(items) == ""
    ensures InputOf(items) != "" ==> LanguageOfExtension(Extension(InputOf(items))) != NONE
  {
    if items == [] {
    } else {
      if items[0].Input? {
        InputHasLanguage(items[0]);
      }
      AppliedInput(items[1..], Apply(items[0], f).fields);
    }
  }

  /** The language that the items leave, when `before` was known already. */
  function LanguageAfter(items: seq<Item>, before: Language): Language {
    if LastX(items) != NONE then LastX(items)
    else if before != NONE || InputOf(items) == "" then before
    else LanguageOfExtension(Extension(InputOf(items)))
  }

  lemma LanguageAfterInput(items: seq<Item>, before: Language)
    requires items != [] && items[0].Input? && items[0].path != "" && InputOf(items[1..]) == ""
    ensures LanguageAfter(items, before) ==
            LanguageAfter(items[1..], if before == NONE then LanguageOfExtension(Extension(items[0].path)) else before)
  {
  }

  lemma LanguageAfterX(items: seq<Item>, before: Language)
    requires items != [] && items[0].XLang?
    ensures LanguageAfter(items, before) ==
            LanguageAfter(items[1..], if LanguageOfX(items[0].value) == NONE then before else LanguageOfX(items[0].value))
  {
  }

  lemma LanguageAfterOther(items: seq<Item>, before: Language)
    requires items != [] && !items[0].XLang? && !items[0].Input?
    ensures LanguageAfter(items, before) == LanguageAfter(items[1..], before)
  {
  }

  lemma AppliesLanguage(item: Item, f: Fields)
    requires Apply(item, f).Done?
    ensures Apply(item, f).fields.language ==
            if item.Input? then (if f.language == NONE then LanguageOfExtension(Extension(item.path)) else f.language)
            else if item.XLang? then (if LanguageOfX(item.value) == NONE then f.language else LanguageOfX(item.value))
            else f.language
  {
  }

  lemma {:induction false} AppliedLanguage(items: seq<Item>, f: Fields)
    requires ApplyAll(items, f).Done? && AllOk(items)
    ensures ApplyAll(items, f).fields.language == LanguageAfter(items, f.language)
  {
    if items == [] {
    } else {
      var g := Apply(items[0], f).fields;
      AppliedLanguage(items[1..], g);
      AppliesLanguage(items[0], f);
      if items[0].Input? {
        InputHasLanguage(items[0]);
        AppliedInput(items[1..], g);
        LanguageAfterInput(items, f.language);
      } else if items[0].XLang? {
        LanguageAfterX(items, f.language);
      } else {
        LanguageAfterOther(items, f.language);
      }
    }
  }

  lemma {:induction false} AppliedOutput(items: seq<Item>, f: Fields)
    requires ApplyAll(items, f).Done?
    ensures ApplyAll(items, f).fields.outfile == OutputAfter(items, f.outfile)
  {
    if items == [] {
    } else {
      AppliedOutput(items[1..], Apply(items[0], f).fields);
    }
  }

  lemma ApplySnoc(items: seq<Item>, f: Fields)
    requires items != []
    ensures var n := |items| - 1;
            ApplyAll(items, f) == match ApplyAll(items[..n], f)
                                  case Failed(why) => Failed(why)
                                  case Done(g) => Apply(items[n], g)
  {
    var n := |items| - 1;
    assert items == items[..n] + [items[n]];
    ApplyAppend(items[..n], [items[n]], f);
    assert [items[n]][1..] == [];
  }

  lemma {:induction false} InputOfSome(items: seq<Item>)
    requires AllOk(items)
    ensures InputOf(items) == "" <==> forall k | 0 <= k < |items| :: !items[k].Input?
  {
    if items == [] {
    } else {
      var tail := items[1..];
      InputOfSome(tail);
      if items[0].Input? {
        InputHasLanguage(items[0]);
      }
      assert forall k | 0 < k < |items| :: items[k] == tail[k - 1];
      assert forall k | 0 <= k < |tail| :: tail[k] == items[k + 1];
    }
  }

  ghost predicate LastFits(front: seq<Item>, last: Item) {
    && (last.Input? ==> forall k | 0 <= k < |front| :: !front[k].Input?)
    && (last.Output? ==> OutputAfter(front, "") == "")
  }

  lemma UnambiguousSnoc(items: seq<Item>)
    requires items != []
    ensures var n := |items| - 1;
            Unambiguous(items) <==> Unambiguous(items[..n]) && LastFits(items[..n], items[n])
  {
    var n := |items| - 1;
    var front := items[..n];
    assert forall k | 0 <= k <= n :: front[..k] == items[..k];
    if Unambiguous(items) {
      forall k | 0 <= k < n && front[k].Output? ensures OutputAfter(front[..k], "") == "" {
        assert items[k].Output? && front[..k] == items[..k];
      }
    }
    if Unambiguous(front) {
      forall k | 0 <= k < n && items[k].Output? ensures OutputAfter(items[..k], "") == "" {
        assert front[k].Output? && front[..k] == items[..k];
      }
    }
  }

  lemma AppliesIff(item: Item, f: Fields)
    ensures Apply(item, f).Done? <==> !(item.Input? && f.infile != "") && !(item.Output? && f.outfile != "")
  {
  }

  lemma FieldsAfter(front: seq<Item>)
    requires AllOk(front) && ApplyAll(front, BLANK).Done?
    ensures ApplyAll(front, BLANK).fields.outfile == OutputAfter(front, "")
    ensures ApplyAll(front, BLANK).fields.infile == "" <==> forall k | 0 <= k < |front| :: !front[k].Input?
  {
    AppliedOutput(front, BLANK);
    AppliedInput(front, BLANK);
    InputOfSome(front);
  }

  lemma LastApplies(front: seq<Item>, last: Item)
    requires AllOk(front) && ApplyAll(front, BLANK).Done?
    ensures Apply(last, ApplyAll(front, BLANK).fields).Done? <==> LastFits(front, last)
  {
    FieldsAfter(front);
    AppliesIff(last, ApplyAll(front, BLANK).fields);
  }

  lemma DoneSnoc(items: seq<Item>)
    requires items != [] && AllOk(items[..|items| - 1])
    ensures var front := items[..|items| - 1];
            ApplyAll(items, BLANK).Done? <==> ApplyAll(front, BLANK).Done? && LastFits(front, items[|items| - 1])
  {
    ApplySnoc(items, BLANK);
    if ApplyAll(items[..|items| - 1], BLANK).Done? {
      LastApplies(items[..|items| - 1], items[|items| - 1]);
    }
  }

  lemma FrontOk(items: seq<Item>)
    requires items != [] && AllOk(items)
    ensures AllOk(items[..|items| - 1])
  {
  }

  /** The run over the items fails exactly for a second input or a separate -o
      after an output is known. */
  lemma {:induction false} RunSucceedsExactlyWhen(items: seq<Item>)
    requires AllOk(items)
    ensures ApplyAll(items, BLANK).Done? <==> Unambiguous(items)
  {
    if items == [] {
    } else {
      FrontOk(items);
      RunSucceedsExactlyWhen(items[..|items| - 1]);
      DoneSnoc(items);
      UnambiguousSnoc(items);
    }
  }

  /** On a successful parse the decision, the language and the input do not depend
      on where their arguments stand: jobs are distributed iff some -c or -S occurs
      as an option, every -x is recognised and the input is not conftest.c; the
      language is that of the last recognised -x, else that of the input's
      extension; and no job is turned away for want of a language. */
  lemma SummaryOfParse(files: Files, rank: map<string, nat>, depth: nat, args: seq<string>)
    ensures var items := Read(files, rank, depth, args).items;
            && Parse(files, rank, depth, args) != Failed(NoLanguage)
            && (Parse(files, rank, depth, args).Done? ==>
                  var f := Parse(files, rank, depth, args).fields;
                  && f.infile == InputOf(items)
                  && f.canDistribute == Some(Distributes(items))
                  && f.language == LanguageAfter(items, NONE)
                  && f.modeArg == LastMode(items) && (HasMode(items) ==> IsMode(f.modeArg))
                  && f.args == EmitAll(items) && f.target == LastTarget(items)
                  && f.outfile == (if OutputAfter(items, "") == "" && f.canDistribute == Some(true) then Stem(f.infile) + ".o"
                                   else OutputAfter(items, "")))
  {
    var script := Read(files, rank, depth, args);
    ReadItemsOk(files, rank, depth, args);
    ReadEnds(files, rank, depth, args);
    if ApplyAll(script.items, BLANK).Done? {
      AppliedArgs(script.items, BLANK);
      AppliedTarget(script.items, BLANK);
      AppliedMode(script.items, BLANK);
      AppliedOutput(script.items, BLANK);
      AppliedDecision(script.items, BLANK);
      AppliedInput(script.items, BLANK);
      AppliedLanguage(script.items, BLANK);
    } else {
      ApplyFails(script.items, BLANK);
    }
  }

  predicate Distributes(items: seq<Item>) {
    HasMode(items) && !HasUnknownX(items) && FileName(InputOf(items)) != "conftest.c"
  }

  /** The client's parser succeeds exactly when the arguments can be read to their
      end, inputs and outputs are unambiguous, and a job to be distributed has an
      input. */
  lemma ParseSucceedsExactlyWhen(files: Files, rank: map<string, nat>, depth: nat, args: seq<string>)
    ensures var script := Read(files, rank, depth, args);
            Parse(files, rank, depth, args).Done? <==>
            script.end.None? && Unambiguous(script.items) && (Distributes(script.items) ==> InputOf(script.items) != "")
  {
    var script := Read(files, rank, depth, args);
    ReadItemsOk(files, rank, depth, args);
    RunSucceedsExactlyWhen(script.items);
    if ApplyAll(script.items, BLANK).Done? {
      AppliedDecision(script.items, BLANK);
      AppliedInput(script.items, BLANK);
      AppliedLanguage(script.items, BLANK);
    }
  }

  lemma {:induction false} ReadEnds(files: Files, rank: map<string, nat>, depth: nat, args: seq<string>)
    ensures Read(files, rank, depth, args).end != Some(NoLanguage)
    decreases depth, |args|
  {
    if args == [] || Refused(args[0]) {
    } else {
      if "@" <= args[0] {
        var path := args[0][1..];
        if path in files && path in rank && rank[path] < depth {
          ReadEnds(files, rank, rank[path], FileArgs(files, path));
          ReadEnds(files, rank, depth, args[1..]);
        }
      } else if TakesValue(args[0]) {
        if |args| > 1 {
          ReadEnds(files, rank, depth, args[2..]);
        }
      } else {
        ReadEnds(files, rank, depth, args[1..]);
      }
    }
  }

  lemma {:induction false} ApplyFails(items: seq<Item>, f: Fields)
    requires ApplyAll(items, f).Failed?
    ensures ApplyAll(items, f).why == ManyInputs || ApplyAll(items, f).why == ManyOutputs
  {
    if Apply(items[0], f).Failed? {
    } else {
      ApplyFails(items[1..], Apply(items[0], f).fields);
    }
  }
}
