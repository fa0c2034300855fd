/** Argument files: when reading through them means the same as having their
    contents in place, at every depth. How deep they nest makes no difference. */
module ArgumentFiles {
  import opened Wrappers
  import opened Flags
  import opened ClientParser

  lemma ThenCons(item: Item, a: Script, b: Script)
    ensures Then(Cons(item, a), b) == Cons(item, Then(a, b))
  {
    assert [item] + a.items + b.items == [item] + (a.items + b.items);
  }

  lemma ThenThen(a: Script, b: Script, c: Script)
    ensures Then(Then(a, b), c) == Then(a, Then(b, c))
  {
    assert a.items + b.items + c.items == a.items + (b.items + c.items);
  }

  lemma ThenNothing(a: Script)
    ensures Then(Script([], None), a) == a
  {
    assert [] + a.items == a.items;
  }

  lemma ReadFileFirst(files: Files, rank: map<string, nat>, depth: nat, args: seq<string>)
    requires StartsWithFile(files, rank, depth, args)
    ensures Read(files, rank, depth, args) ==
            Then(Read(files, rank, rank[args[0][1..]], FileArgs(files, args[0][1..])), Read(files, rank, depth, args[1..]))
  {
  }

  lemma ReadPairFirst(files: Files, rank: map<string, nat>, depth: nat, args: seq<string>)
    requires StartsWithPair(args)
    ensures Read(files, rank, depth, args) == Cons(PairItem(args[0], args[1]), Read(files, rank, depth, args[2..]))
  {
  }

  lemma ReadSingleFirst(files: Files, rank: map<string, nat>, depth: nat, args: seq<string>)
    requires StartsWithSingle(args)
    ensures Read(files, rank, depth, args) == Cons(SingleItem(files, args[0]), Read(files, rank, depth, args[1..]))
  {
  }

  /** What a reading that came to its end tells about the first argument. */
  lemma ReadFirst(files: Files, rank: map<string, nat>, depth: nat, args: seq<string>)
    requires args != [] && Read(files, rank, depth, args).end.None?
    ensures !Refused(args[0])
    ensures "@" <= args[0] ==>
              && StartsWithFile(files, rank, depth, args)
              && Read(files, rank, rank[args[0][1..]], FileArgs(files, args[0][1..])).end.None?
              && Read(files, rank, depth, args[1..]).end.None?
    ensures !("@" <= args[0]) && TakesValue(args[0]) ==> |args| > 1
  {
  }

  ghost predicate StartsWithFile(files: Files, rank: map<string, nat>, depth: nat, args: seq<string>) {
    && args != [] && !Refused(args[0]) && "@" <= args[0]
    && args[0][1..] in files && args[0][1..] in rank && rank[args[0][1..]] < depth
  }

  lemma AppendFile(files: Files, rank: map<string, nat>, depth: nat, a: seq<string>, b: seq<string>, c: seq<string>)
    requires StartsWithFile(files, rank, depth, a) && StartsWithFile(files, rank, depth, c) && c[0] == a[0]
    requires Read(files, rank, depth, c[1..]) == Then(Read(files, rank, depth, a[1..]), Read(files, rank, depth, b))
    ensures Read(files, rank, depth, c) == Then(Read(files, rank, depth, a), Read(files, rank, depth, b))
  {
    var path := a[0][1..];
    ReadFileFirst(files, rank, depth, a);
    ReadFileFirst(files, rank, depth, c);
    ThenThen(Read(files, rank, rank[path], FileArgs(files, path)), Read(files, rank, depth, a[1..]), Read(files, rank, depth, b));
  }

  ghost predicate StartsWithPair(args: seq<string>) {
    |args| > 1 && !Refused(args[0]) && !("@" <= args[0]) && TakesValue(args[0])
  }

  ghost predicate StartsWithSingle(args: seq<string>) {
    args != [] && !Refused(args[0]) && !("@" <= args[0]) && !TakesValue(args[0])
  }

  lemma AppendPair(files: Files, rank: map<string, nat>, depth: nat, a: seq<string>, b: seq<string>, c: seq<string>)
    requires StartsWithPair(a) && StartsWithPair(c) && c[0] == a[0] && c[1] == a[1]
    requires Read(files, rank, depth, c[2..]) == Then(Read(files, rank, depth, a[2..]), Read(files, rank, depth, b))
    ensures Read(files, rank, depth, c) == Then(Read(files, rank, depth, a), Read(files, rank, depth, b))
  {
    ReadPairFirst(files, rank, depth, a);
    ReadPairFirst(files, rank, depth, c);
    ThenCons(PairItem(a[0], a[1]), Read(files, rank, depth, a[2..]), Read(files, rank, depth, b));
  }

  lemma AppendSingle(files: Files, rank: map<string, nat>, depth: nat, a: seq<string>, b: seq<string>, c: seq<string>)
    requires StartsWithSingle(a) && StartsWithSingle(c) && c[0] == a[0]
    requires Read(files, rank, depth, c[1..]) == Then(Read(files, rank, depth, a[1..]), Read(files, rank, depth, b))
    ensures Read(files, rank, depth, c) == Then(Read(files, rank, depth, a), Read(files, rank, depth, b))
  {
    ReadSingleFirst(files, rank, depth, a);
    ReadSingleFirst(files, rank, depth, c);
    ThenCons(SingleItem(files, a[0]), Read(files, rank, depth, a[1..]), Read(files, rank, depth, b));
  }

  lemma SplitAppend(a: seq<string>, b: seq<string>, n: nat)
    requires 1 <= n <= |a|
    ensures (a + b)[n..] == a[n..] + b && (a + b)[0] == a[0] && |a + b| >= n
    ensures n > 1 ==> (a + b)[1] == a[1]
  {
  }

  lemma AppendFileHere(files: Files, rank: map<string, nat>, depth: nat, a: seq<string>, b: seq<string>)
    requires StartsWithFile(files, rank, depth, a)
    requires Read(files, rank, depth, a[1..] + b) == Then(Read(files, rank, depth, a[1..]), Read(files, rank, depth, b))
    ensures Read(files, rank, depth, a + b) == Then(Read(files, rank, depth, a), Read(files, rank, depth, b))
  {
    SplitAppend(a, b, 1);
    AppendFile(files, rank, depth, a, b, a + b);
  }

  lemma AppendPairHere(files: Files, rank: map<string, nat>, depth: nat, a: seq<string>, b: seq<string>)
    requires StartsWithPair(a)
    requires Read(files, rank, depth, a[2..] + b) == Then(Read(files, rank, depth, a[2..]), Read(files, rank, depth, b))
    ensures Read(files, rank, depth, a + b) == Then(Read(files, rank, depth, a), Read(files, rank, depth, b))
  {
    SplitAppend(a, b, 2);
    AppendPair(files, rank, depth, a, b, a + b);
  }

  lemma AppendSingleHere(files: Files, rank: map<string, nat>, depth: nat, a: seq<string>, b: seq<string>)
    requires StartsWithSingle(a)
    requires Read(files, rank, depth, a[1..] + b) == Then(Read(files, rank, depth, a[1..]), Read(files, rank, depth, b))
    ensures Read(files, rank, depth, a + b) == Then(Read(files, rank, depth, a), Read(files, rank, depth, b))
  {
    SplitAppend(a, b, 1);
    AppendSingle(files, rank, depth, a, b, a + b);
  }

  /** Reading continues after a part that was read to its end. */
  lemma {:induction false} ReadAppend(files: Files, rank: map<string, nat>, depth: nat, a: seq<string>, b: seq<string>)
    requires Read(files, rank, depth, a).end.None?
    ensures Read(files, rank, depth, a + b) == Then(Read(files, rank, depth, a), Read(files, rank, depth, b))
    decreases |a|
  {
    if a == [] {
      assert a + b == b;
      ThenNothing(Read(files, rank, depth, b));
    } else {
      ReadFirst(files, rank, depth, a);
      if "@" <= a[0] {
        ReadAppend(files, rank, depth, a[1..], b);
        AppendFileHere(files, rank, depth, a, b);
      } else if TakesValue(a[0]) {
        ReadAppend(files, rank, depth, a[2..], b);
        AppendPairHere(files, rank, depth, a, b);
      } else {
        ReadAppend(files, rank, depth, a[1..], b);
        AppendSingleHere(files, rank, depth, a, b);
      }
    }
  }

  /** Ranks and depths are witnesses of termination only: any two of them that do
      their job give the same script. */
  lemma {:induction false} RankIsOnlyAWitness(files: Files, r: map<string, nat>, d: nat, r': map<string, nat>, d': nat, args: seq<string>)
    requires Ranked(files, r, d, args) && Ranked(files, r', d', args)
    ensures Read(files, r, d, args) == Read(files, r', d', args)
    decreases d, |args|
  {
    if args == [] || Refused(args[0]) {
    } else {
      if "@" <= args[0] {
        var path := args[0][1..];
        if path in files {
          RankIsOnlyAWitness(files, r, r[path], r', r'[path], FileArgs(files, path));
          if Read(files, r, r[path], FileArgs(files, path)).end.None? {
            RankIsOnlyAWitness(files, r, d, r', d', args[1..]);
          }
        }
      } else if TakesValue(args[0]) {
        if |args| > 1 {
          RankIsOnlyAWitness(files, r, d, r', d', args[2..]);
        }
      } else {
        RankIsOnlyAWitness(files, r, d, r', d', args[1..]);
      }
    }
  }

  /** Every file that has a rank refers only to files of lower rank. Files that are
      never read as argument files need no rank. */
  ghost predicate Acyclic(files: Files, rank: map<string, nat>) {
    forall path | path in files && path in rank :: RefersBelow(files, rank, rank[path], FileArgs(files, path))
  }

  ghost predicate RefersBelow(files: Files, rank: map<string, nat>, depth: nat, args: seq<string>) {
    forall k | 0 <= k < |args| && "@" <= args[k] && args[k][1..] in files ::
      args[k][1..] in rank && rank[args[k][1..]] < depth
  }

  /** With an acyclic graph of argument files reading never goes in circles. */
  lemma {:induction false} AcyclicIsRanked(files: Files, rank: map<string, nat>, depth: nat, args: seq<string>)
    requires Acyclic(files, rank) && RefersBelow(files, rank, depth, args)
    ensures Ranked(files, rank, depth, args)
    decreases depth, |args|
  {
    if args == [] || Refused(args[0]) {
    } else {
      assert RefersBelow(files, rank, depth, args[1..]);
      if "@" <= args[0] {
        var path := args[0][1..];
        if path in files {
          AcyclicIsRanked(files, rank, rank[path], FileArgs(files, path));
        }
        AcyclicIsRanked(files, rank, depth, args[1..]);
      } else if TakesValue(args[0]) {
        if |args| > 1 {
          assert RefersBelow(files, rank, depth, args[2..]);
          AcyclicIsRanked(files, rank, depth, args[2..]);
        }
      } else {
        AcyclicIsRanked(files, rank, depth, args[1..]);
      }
    }
  }

  /** The arguments with the contents of every argument file spliced in where an
      option could stand, at every depth. Values of options are left alone. */
  ghost function Inline(files: Files, rank: map<string, nat>, depth: nat, args: seq<string>): seq<string>
    decreases depth, |args|
  {
    if args == [] then []
    else if StartsWithFile(files, rank, depth, args) then
      Inline(files, rank, rank[args[0][1..]], FileArgs(files, args[0][1..])) + Inline(files, rank, depth, args[1..])
    else if TakesValue(args[0]) && |args| > 1 then
      args[..2] + Inline(files, rank, depth, args[2..])
    else
      args[..1] + Inline(files, rank, depth, args[1..])
  }

  lemma InlineFirst(files: Files, rank: map<string, nat>, depth: nat, args: seq<string>)
    requires args != [] && Read(files, rank, depth, args).end.None?
    ensures var a := args[0];
            Inline(files, rank, depth, args) ==
            if "@" <= a then
              Inline(files, rank, rank[a[1..]], FileArgs(files, a[1..])) + Inline(files, rank, depth, args[1..])
            else if TakesValue(a) then [a, args[1]] + Inline(files, rank, depth, args[2..])
            else [a] + Inline(files, rank, depth, args[1..])
  {
    ReadFirst(files, rank, depth, args);
    assert args[..1] == [args[0]];
    if |args| > 1 {
      assert args[..2] == [args[0], args[1]];
    }
  }

  // --- When inlining changes the result -----------------------------------------

  /** The arguments can be parsed to their end without entering a file. */
  predicate Whole(args: seq<string>) {
    args == []
    || (&& !Refused(args[0]) && !("@" <= args[0])
        && (if TakesValue(args[0]) then |args| > 1 && Whole(args[2..]) else Whole(args[1..])))
  }

  /** Parsing gets to the last argument, and that is an option that lacks its value. */
  predicate EndsInPair(args: seq<string>) {
    && args != [] && !Refused(args[0]) && !("@" <= args[0])
    && (if TakesValue(args[0]) then |args| == 1 || EndsInPair(args[2..]) else EndsInPair(args[1..]))
  }

  /** Some argument file that is entered ends with an option that lacks its value,
      although more arguments follow the reference to the file. */
  ghost predicate CutShort(files: Files, rank: map<string, nat>, depth: nat, args: seq<string>)
    decreases depth, |args|
  {
    if args == [] || Refused(args[0]) then false
    else if "@" <= args[0] then
      && StartsWithFile(files, rank, depth, args)
      && var path := args[0][1..];
         var own := Inline(files, rank, rank[path], FileArgs(files, path));
         || CutShort(files, rank, rank[path], FileArgs(files, path))
         || (if Whole(own) then CutShort(files, rank, depth, args[1..])
             else EndsInPair(own) && Inline(files, rank, depth, args[1..]) != [])
    else if TakesValue(args[0]) then |args| > 1 && CutShort(files, rank, depth, args[2..])
    else CutShort(files, rank, depth, args[1..])
  }

  /** The reading `more` recognises all that `less` does, and then some. */
  ghost predicate GoesFurther(less: Script, more: Script) {
    less.items < more.items
  }

  lemma GoesFurtherAfter(a: Script, less: Script, more: Script)
    requires a.end.None? && GoesFurther(less, more)
    ensures GoesFurther(Then(a, less), Then(a, more))
  {
    assert (a.items + more.items)[..|a.items| + |less.items|] == a.items + more.items[..|less.items|];
  }

  lemma GoesFurtherCons(item: Item, less: Script, more: Script)
    requires GoesFurther(less, more)
    ensures GoesFurther(Cons(item, less), Cons(item, more))
  {
    assert ([item] + more.items)[..1 + |less.items|] == [item] + more.items[..|less.items|];
  }

  /** How the readings of a left part and of the whole go together when no file is
      entered; `more` tells whether anything follows the left part. */
  ghost predicate Extends(left: Script, args: seq<string>, more: bool, whole: Script) {
    && (left.end.None? <==> Whole(args))
    && (left.end.Some? && left.end.value.LastArgument? <==> EndsInPair(args))
    && (Whole(args) ==> left.items <= whole.items)
    && (EndsInPair(args) && more ==> GoesFurther(left, whole))
    && (!Whole(args) && !(EndsInPair(args) && more) ==> whole == left)
  }

  lemma {:induction false} AppendFlat(files: Files, rank: map<string, nat>, a: seq<string>, b: seq<string>)
    ensures Extends(Read(files, rank, 0, a), a, b != [], Read(files, rank, 0, a + b))
    decreases |a|, 1
  {
    if a == [] {
    } else if Refused(a[0]) || "@" <= a[0] {
      SplitAppend(a, b, 1);
    } else if TakesValue(a[0]) {
      AppendFlatPair(files, rank, a, b);
    } else {
      SplitAppend(a, b, 1);
      AppendFlat(files, rank, a[1..], b);
      ReadSingleFirst(files, rank, 0, a);
      ReadSingleFirst(files, rank, 0, a + b);
      ExtendsCons(SingleItem(files, a[0]), Read(files, rank, 0, a[1..]), a[1..], b != [], Read(files, rank, 0, a[1..] + b), a);
    }
  }

  lemma {:induction false} AppendFlatPair(files: Files, rank: map<string, nat>, a: seq<string>, b: seq<string>)
    requires a != [] && !Refused(a[0]) && !("@" <= a[0]) && TakesValue(a[0])
    ensures Extends(Read(files, rank, 0, a), a, b != [], Read(files, rank, 0, a + b))
    decreases |a|, 0
  {
    if |a| > 1 {
      SplitAppend(a, b, 2);
      AppendFlat(files, rank, a[2..], b);
      ReadPairFirst(files, rank, 0, a);
      ReadPairFirst(files, rank, 0, a + b);
      ExtendsCons(PairItem(a[0], a[1]), Read(files, rank, 0, a[2..]), a[2..], b != [], Read(files, rank, 0, a[2..] + b), a);
    } else if b == [] {
      assert a + b == a;
    } else {
      SplitAppend(a, b, 1);
      ReadPairFirst(files, rank, 0, a + b);
    }
  }

  lemma ExtendsCons(item: Item, left: Script, rest: seq<string>, more: bool, whole: Script, args: seq<string>)
    requires Extends(left, rest, more, whole)
    requires (Whole(args) <==> Whole(rest)) && (EndsInPair(args) <==> EndsInPair(rest))
    ensures Extends(Cons(item, left), args, more, Cons(item, whole))
  {
    if GoesFurther(left, whole) {
      GoesFurtherCons(item, left, whole);
    }
  }

  /** The reading of the arguments and that of the inlined arguments are the same,
      or the first ends at an option without value and the second goes further. */
  ghost predicate SameUnless(cut: bool, reading: Script, inlined: Script) {
    if cut then reading.end.Some? && reading.end.value.LastArgument? && GoesFurther(reading, inlined)
    else inlined == reading
  }

  /** The step for a reference: what holds of the file and of the rest holds of both. */
  lemma InlineFile(files: Files, rank: map<string, nat>, depth: nat, args: seq<string>)
    requires StartsWithFile(files, rank, depth, args)
    requires var path := args[0][1..];
             var own := FileArgs(files, path);
             && SameUnless(CutShort(files, rank, rank[path], own), Read(files, rank, rank[path], own),
                           Read(files, rank, 0, Inline(files, rank, rank[path], own)))
             && (Read(files, rank, rank[path], own).end.None? ==>
                   SameUnless(CutShort(files, rank, depth, args[1..]), Read(files, rank, depth, args[1..]),
                              Read(files, rank, 0, Inline(files, rank, depth, args[1..]))))
    ensures SameUnless(CutShort(files, rank, depth, args), Read(files, rank, depth, args),
                       Read(files, rank, 0, Inline(files, rank, depth, args)))
  {
    var path := args[0][1..];
    var a, b := Inline(files, rank, rank[path], FileArgs(files, path)), Inline(files, rank, depth, args[1..]);
    var first, rest := Read(files, rank, rank[path], FileArgs(files, path)), Read(files, rank, depth, args[1..]);
    ReadFileFirst(files, rank, depth, args);
    AppendFlat(files, rank, a, b);
    if first.end.None? {
      ReadAppend(files, rank, 0, a, b);
      if CutShort(files, rank, depth, args[1..]) {
        GoesFurtherAfter(first, rest, Read(files, rank, 0, b));
      }
    }
  }

  lemma {:induction false} InlineReads(files: Files, rank: map<string, nat>, depth: nat, args: seq<string>)
    requires Ranked(files, rank, depth, args)
    ensures SameUnless(CutShort(files, rank, depth, args), Read(files, rank, depth, args),
                       Read(files, rank, 0, Inline(files, rank, depth, args)))
    decreases depth, |args|
  {
    var inlined := Inline(files, rank, depth, args);
    if args == [] {
    } else if StartsWithFile(files, rank, depth, args) {
      var path := args[0][1..];
      InlineReads(files, rank, rank[path], FileArgs(files, path));
      if Read(files, rank, rank[path], FileArgs(files, path)).end.None? {
        InlineReads(files, rank, depth, args[1..]);
      }
      InlineFile(files, rank, depth, args);
    } else if StartsWithPair(args) {
      assert inlined[2..] == Inline(files, rank, depth, args[2..]);
      InlineReads(files, rank, depth, args[2..]);
      ReadPairFirst(files, rank, depth, args);
      ReadPairFirst(files, rank, 0, inlined);
      if CutShort(files, rank, depth, args) {
        GoesFurtherCons(PairItem(args[0], args[1]), Read(files, rank, depth, args[2..]), Read(files, rank, 0, inlined[2..]));
      }
    } else if StartsWithSingle(args) {
      assert inlined[1..] == Inline(files, rank, depth, args[1..]);
      InlineReads(files, rank, depth, args[1..]);
      ReadSingleFirst(files, rank, depth, args);
      ReadSingleFirst(files, rank, 0, inlined);
      if CutShort(files, rank, depth, args) {
        GoesFurtherCons(SingleItem(files, args[0]), Read(files, rank, depth, args[1..]), Read(files, rank, 0, inlined[1..]));
      }
    } else {
      assert inlined[0] == args[0] && (|args| == 1 ==> |inlined| == 1);
    }
  }

  /** More depth changes nothing. */
  lemma {:induction false} DeeperIsSame(files: Files, rank: map<string, nat>, d: nat, d': nat, args: seq<string>)
    requires d <= d' && Ranked(files, rank, d, args)
    ensures Read(files, rank, d', args) == Read(files, rank, d, args)
    decreases |args|
  {
    if args == [] || Refused(args[0]) {
    } else {
      if "@" <= args[0] {
        if args[0][1..] in files && Read(files, rank, rank[args[0][1..]], FileArgs(files, args[0][1..])).end.None? {
          DeeperIsSame(files, rank, d, d', args[1..]);
        }
      } else if TakesValue(args[0]) {
        if |args| > 1 {
          DeeperIsSame(files, rank, d, d', args[2..]);
        }
      } else {
        DeeperIsSame(files, rank, d, d', args[1..]);
      }
    }
  }

  /** Inlining, exactly: the inlined arguments, in which no argument file is entered
      any more, are read as the original ones are if and only if no file is cut
      short. If one is, parsing stops there with an error, and the inlined arguments
      are read further. */
  lemma InliningExactlyWhen(files: Files, rank: map<string, nat>, depth: nat, args: seq<string>)
    requires Ranked(files, rank, depth, args)
    ensures Read(files, rank, 0, Inline(files, rank, depth, args)) == Read(files, rank, depth, args)
            <==> !CutShort(files, rank, depth, args)
    ensures CutShort(files, rank, depth, args) ==>
              && GoesFurther(Read(files, rank, depth, args), Read(files, rank, 0, Inline(files, rank, depth, args)))
              && Parse(files, rank, depth, args).Failed?
  {
    InlineReads(files, rank, depth, args);
  }

  /** Inlining preserves meaning: unless a file is cut short, parsing the inlined
      arguments gives the same final fields or the same error; in particular it
      does whenever parsing succeeds. */
  lemma InliningPreservesParse(files: Files, rank: map<string, nat>, depth: nat, args: seq<string>, any: nat)
    requires Ranked(files, rank, depth, args)
    ensures !CutShort(files, rank, depth, args) || Parse(files, rank, depth, args).Done? ==>
              Parse(files, rank, any, Inline(files, rank, depth, args)) == Parse(files, rank, depth, args)
  {
    InliningExactlyWhen(files, rank, depth, args);
    if !CutShort(files, rank, depth, args) {
      DeeperIsSame(files, rank, 0, any, Inline(files, rank, depth, args));
    }
  }

  /** One reference can be replaced by the file's arguments on the spot, if the file
      can be parsed to its end on its own, whatever becomes of the rest. */
  lemma SplicingOneFile(files: Files, rank: map<string, nat>, depth: nat, a: seq<string>, path: string, b: seq<string>)
    requires Read(files, rank, depth, a).end.None? && !Refused("@" + path)
    requires path in files && path in rank && rank[path] < depth
    requires Read(files, rank, rank[path], FileArgs(files, path)).end.None?
    ensures Read(files, rank, depth, a + (FileArgs(files, path) + b)) == Read(files, rank, depth, a + (["@" + path] + b))
    ensures Parse(files, rank, depth, a + (FileArgs(files, path) + b)) == Parse(files, rank, depth, a + (["@" + path] + b))
  {
    var ref := ["@" + path] + b;
    assert ref[1..] == b && ref[0][1..] == path;
    ReadFileFirst(files, rank, depth, ref);
    ReadAppend(files, rank, depth, a, ref);
    ReadAppend(files, rank, depth, a, FileArgs(files, path) + b);
    DeeperIsSame(files, rank, rank[path], depth, FileArgs(files, path));
    ReadAppend(files, rank, depth, FileArgs(files, path), b);
  }

  /** The simplest file that is cut short: it consists of an option that takes a value,
      such as -o. Parsing through it is an error, but in place the option takes its
      value from what follows. */
  lemma FailureIsNotPreserved(files: Files, rank: map<string, nat>, depth: nat, args: seq<string>, option: string)
    requires StartsWithFile(files, rank, depth, args) && |args| == 2 && !("@" <= args[1])
    requires files[args[0][1..]] == option && Tokens.Solid(option) && TakesValue(option)
    ensures CutShort(files, rank, depth, args)
    ensures Parse(files, rank, depth, args) == Failed(LastArgument(option))
    ensures Parse(files, rank, depth, FileArgs(files, args[0][1..]) + args[1..]).Done?
  {
    var path := args[0][1..];
    ValueOptionIsNotRefused(option);
    LoneOption(files, rank, rank[path], option);
    LoneFile(files, path, option);
    ReadFileFirst(files, rank, depth, args);
    LoneOptionIsCutShort(files, rank, depth, args, option);
    assert [option] + args[1..] == [option, args[1]];
    PairedOption(files, rank, depth, option, args[1]);
  }

  lemma LoneFile(files: Files, path: string, option: string)
    requires path in files && files[path] == option && Tokens.Solid(option)
    ensures FileArgs(files, path) == [option]
  {
    Tokens.WordsOfSolid(option, "");
    assert "" + option == option;
  }

  /** An option that takes a value is no reference to a file. */
  lemma ValueOptionIsDashed(option: string)
    requires TakesValue(option)
    ensures !("@" <= option)
  {
    MultiCppShape(option);
    assert option[0] == '-';
  }

  lemma ValueOptionIsNotRefused(option: string)
    requires Tokens.Solid(option) && TakesValue(option)
    ensures !Refused(option)
  {
    if MultiCpp(option) {
      MultiIsNotRefused(option);
    } else {
      SpecialIsInert(option);
    }
    hide NoDist;
    assert forall c | c in option :: !Tokens.IsSeparator(c);
  }

  lemma LoneOption(files: Files, rank: map<string, nat>, depth: nat, option: string)
    requires TakesValue(option) && !Refused(option)
    ensures Read(files, rank, depth, [option]) == Stop(LastArgument(option))
    ensures Inline(files, rank, depth, [option]) == [option] && EndsInPair([option])
  {
    ValueOptionIsDashed(option);
    assert [option][..1] == [option] && [option][1..] == [];
  }

  lemma LoneOptionIsCutShort(files: Files, rank: map<string, nat>, depth: nat, args: seq<string>, option: string)
    requires StartsWithFile(files, rank, depth, args) && FileArgs(files, args[0][1..]) == [option]
    requires |args| == 2 && !("@" <= args[1]) && TakesValue(option) && !Refused(option)
    ensures CutShort(files, rank, depth, args)
  {
    LoneOption(files, rank, rank[args[0][1..]], option);
    assert Inline(files, rank, depth, args[1..])[0] == args[1];
  }

  lemma PairedOption(files: Files, rank: map<string, nat>, depth: nat, option: string, value: string)
    requires TakesValue(option) && !Refused(option)
    ensures Parse(files, rank, depth, [option, value]).Done?
  {
    var pair, item := [option, value], PairItem(option, value);
    ValueOptionIsDashed(option);
    ReadPairFirst(files, rank, depth, pair);
    assert pair[2..] == [];
    PlayCons(item, Script([], None), BLANK);
    PairApplies(option, value);
  }

  lemma PairApplies(option: string, value: string)
    ensures var outcome := Apply(PairItem(option, value), BLANK);
            outcome.Done? && Conclude(outcome.fields).Done?
  {
  }
}
