/** The filter that the server puts a job's arguments through: it drops what only
    concerns the preprocessor and turns down what cannot be compiled remotely. */
module ServerParser {
  import opened Flags

  datatype Reason = NotDistributable(arg: string) | LastArgument(arg: string) | ForLink

  /** What a pass over the arguments finds before it asks for a mode. */
  datatype Scanned = Kept(args: seq<string>, compile: bool) | Bad(why: Reason)

  datatype Result = Accepted(args: seq<string>) | Rejected(why: Reason)

  function Scan(args: seq<string>): Scanned {
    if args == [] then Kept([], false)
    else if NoDist(args[0]) then Bad(NotDistributable(args[0]))
    else if MultiCpp(args[0]) then
      if |args| == 1 then Bad(LastArgument(args[0])) else Scan(args[2..])
    else if SingleCpp(args[0]) then Scan(args[1..])
    else Prepend([args[0]], args[0] == "-c", Scan(args[1..]))
  }

  function Prepend(args: seq<string>, compile: bool, rest: Scanned): Scanned {
    match rest
    case Bad(_) => rest
    case Kept(more, c) => Kept(args + more, compile || c)
  }

  function Decide(scanned: Scanned): Result {
    match scanned
    case Bad(why) => Rejected(why)
    case Kept(args, compile) => if compile then Accepted(args) else Rejected(ForLink)
  }

  function Parse(args: seq<string>): Result {
    Decide(Scan(args))
  }

  lemma ScanAt(input: seq<string>, i: nat)
    requires i < |input|
    ensures var arg := input[i];
            Scan(input[i..]) ==
            if NoDist(arg) then Bad(NotDistributable(arg))
            else if MultiCpp(arg) then
              if i == |input| - 1 then Bad(LastArgument(arg)) else Scan(input[i + 2..])
            else if SingleCpp(arg) then Scan(input[i + 1..])
            else Prepend([arg], arg == "-c", Scan(input[i + 1..]))
  {
    assert input[i..][1..] == input[i + 1..];
    if i + 1 < |input| {
      assert input[i..][2..] == input[i + 2..];
    }
  }

  lemma PrependTwice(a: seq<string>, c: bool, b: seq<string>, d: bool, rest: Scanned)
    ensures Prepend(a, c, Prepend(b, d, rest)) == Prepend(a + b, c || d, rest)
  {
    if rest.Kept? {
      assert a + (b + rest.args) == a + b + rest.args;
    }
  }

  class Parser {
    var args: seq<string>

    constructor ()
      ensures args == []
    {
      args := [];
    }

    /** The loop as the server runs it; None is success. */
    method Run(input: seq<string>) returns (result: Result)
      requires args == []
      modifies this
      ensures result == Parse(input)
      ensures result.Accepted? ==> args == result.args
    {
      var canDistribute := false;
      var i := 0;
      assert input[0..] == input;
      while i < |input|
        invariant 0 <= i <= |input|
        invariant Prepend(args, canDistribute, Scan(input[i..])) == Scan(input)
        decreases |input| - i
      {
        var arg := input[i];
        ScanAt(input, i);
        PrependTwice(args, canDistribute, [arg], arg == "-c", Scan(input[i + 1..]));
        if MultiCpp(arg) {
          MultiIsNotSingle(arg);
        }
        if Listed(SINGLE_NO_DIST, arg) {
          return Rejected(NotDistributable(arg));
        }
        if Listed(MULTI_NO_DIST, arg) {
          return Rejected(NotDistributable(arg));
        }
        if PrefixListed(SINGLE_NO_DIST_STARTS, arg) {
          return Rejected(NotDistributable(arg));
        }
        if Listed(SINGLE_CPP, arg) {
          i := i + 1;
          continue;
        }
        if MultiCpp(arg) {
          if i == |input| - 1 {
            return Rejected(LastArgument(arg));
          }
          i := i + 2;
          continue;
        }
        if PrefixListed(SINGLE_CPP_STARTS, arg) {
          i := i + 1;
          continue;
        }
        if arg == "-c" {
          canDistribute := true;
        }
        args := args + [arg];
        i := i + 1;
      }
      if !canDistribute {
        return Rejected(ForLink);
      }
      return Accepted(args);
    }
  }

  // --- What the filter does --------------------------------------------------

  /** The elements of s occur in t in the same order. */
  ghost predicate Subsequence(s: seq<string>, t: seq<string>) {
    s == [] || (t != [] && ((s[0] == t[0] && Subsequence(s[1..], t[1..])) || Subsequence(s, t[1..])))
  }

  lemma {:induction false} SubsequenceSkip(s: seq<string>, t: seq<string>, n: nat)
    requires n <= |t| && Subsequence(s, t[n..])
    ensures Subsequence(s, t)
  {
    if n == 0 {
      assert t[0..] == t;
    } else {
      assert t[n..] == t[1..][n - 1..];
      SubsequenceSkip(s, t[1..], n - 1);
    }
  }

  /** Nothing is added or reordered, no argument that the server's tables mention
      is left in any position, and the compile flag is seen exactly if it is kept. */
  lemma {:induction false} KeptIsClean(args: seq<string>)
    requires Scan(args).Kept?
    ensures Subsequence(Scan(args).args, args)
    ensures forall k | 0 <= k < |Scan(args).args| :: Inert(Scan(args).args[k])
    ensures Scan(args).compile <==> "-c" in Scan(args).args
  {
    if args == [] {
    } else if MultiCpp(args[0]) {
      KeptIsClean(args[2..]);
      SubsequenceSkip(Scan(args).args, args, 2);
    } else if SingleCpp(args[0]) {
      KeptIsClean(args[1..]);
    } else {
      KeptIsClean(args[1..]);
      assert Scan(args).args[1..] == Scan(args[1..]).args;
    }
  }

  lemma {:induction false} CleanIsKept(args: seq<string>)
    requires forall k | 0 <= k < |args| :: Inert(args[k])
    ensures Scan(args) == Kept(args, "-c" in args)
  {
    if args == [] {
    } else {
      CleanIsKept(args[1..]);
      assert args == [args[0]] + args[1..];
    }
  }

  /** Parsing what the filter let through lets all of it through again. */
  lemma FilterTwice(args: seq<string>)
    requires Parse(args).Accepted?
    ensures Parse(Parse(args).args) == Parse(args)
    ensures Subsequence(Parse(args).args, args) && "-c" in Parse(args).args
  {
    KeptIsClean(args);
    CleanIsKept(Parse(args).args);
  }

  /** What the first option makes of the result for the rest. */
  function First(arg: string, rest: Scanned): Scanned {
    if MultiCpp(arg) || SingleCpp(arg) then rest else Prepend([arg], arg == "-c", rest)
  }

  lemma ScanPair(args: seq<string>)
    requires |args| > 1 && MultiCpp(args[0]) && !NoDist(args[0])
    ensures Scan(args) == Scan(args[2..])
  {
  }

  lemma ScanSingle(args: seq<string>)
    requires args != [] && !MultiCpp(args[0]) && !NoDist(args[0])
    ensures Scan(args) == First(args[0], Scan(args[1..]))
  {
  }

  lemma DropAppend(a: seq<string>, b: seq<string>, n: nat)
    requires 1 <= n <= |a|
    ensures (a + b)[n..] == a[n..] + b && (a + b)[0] == a[0] && n <= |a + b|
  {
  }

  lemma FirstPrepend(arg: string, args: seq<string>, compile: bool, rest: Scanned)
    ensures First(arg, Prepend(args, compile, rest)) ==
            match First(arg, Kept(args, compile))
            case Kept(more, c) => Prepend(more, c, rest)
            case Bad(_) => rest
  {
    PrependTwice([arg], arg == "-c", args, compile, rest);
  }

  /** How the result for a left part and a right part come together. */
  ghost predicate Composes(left: Scanned, right: Scanned, both: Scanned) {
    match left
    case Kept(args, compile) => both == Prepend(args, compile, right)
    case Bad(NotDistributable(_)) => both == left
    case Bad(_) => true
  }

  lemma ComposesFirst(arg: string, left: Scanned, right: Scanned, both: Scanned)
    requires Composes(left, right, both)
    ensures Composes(First(arg, left), right, First(arg, both))
  {
    if left.Kept? {
      FirstPrepend(arg, left.args, left.compile, right);
    }
  }

  lemma ComposesEmpty(right: Scanned)
    ensures Composes(Kept([], false), right, right)
  {
    if right.Kept? {
      assert [] + right.args == right.args;
    }
  }

  /** Filtering distributes over concatenation when the left part is let through,
      and a left part that is turned down for an option is turned down anyway. */
  lemma {:induction false} ScanAppend(a: seq<string>, b: seq<string>)
    ensures Composes(Scan(a), Scan(b), Scan(a + b))
  {
    if a == [] {
      assert a + b == b;
      ComposesEmpty(Scan(b));
    } else if NoDist(a[0]) {
    } else if MultiCpp(a[0]) {
      if |a| > 1 {
        DropAppend(a, b, 2);
        ScanAppend(a[2..], b);
        ScanPair(a);
        ScanPair(a + b);
      }
    } else {
      DropAppend(a, b, 1);
      ScanAppend(a[1..], b);
      ScanSingle(a);
      ScanSingle(a + b);
      ComposesFirst(a[0], Scan(a[1..]), Scan(b), Scan(a[1..] + b));
    }
  }

  // --- The filter, argument by argument -------------------------------------------

  lemma ScanOneAfter(args: seq<string>, arg: string)
    requires Scan(args).Kept?
    ensures NoDist(arg) ==> Scan(args + [arg]) == Bad(NotDistributable(arg))
    ensures !NoDist(arg) && MultiCpp(arg) ==> Scan(args + [arg]) == Bad(LastArgument(arg))
    ensures !NoDist(arg) && !MultiCpp(arg) && SingleCpp(arg) ==> Scan(args + [arg]) == Scan(args)
    ensures Inert(arg) ==> Scan(args + [arg]) == Kept(Scan(args).args + [arg], Scan(args).compile || arg == "-c")
  {
    assert [arg][1..] == [];
    ScanAppend(args, [arg]);
    hide NoDist, MultiCpp, SingleCpp;
    if !NoDist(arg) && !MultiCpp(arg) {
      ScanSingle([arg]);
    }
  }

  lemma ScanPairAfter(args: seq<string>, arg: string, value: string)
    requires Scan(args).Kept? && MultiCpp(arg)
    ensures Scan(args + [arg, value]) == Scan(args)
  {
    MultiIsNotRefused(arg);
    hide NoDist, MultiCpp, SingleCpp;
    ScanAppend(args, [arg, value]);
    ScanPair([arg, value]);
    assert [arg, value][2..] == [];
  }

  /** What one more argument does to a filter that has let everything through so far,
      by the tables: one that prevents distribution is named in the rejection; a
      two-part preprocessor option is dropped with its value, and rejected without
      one; a one-part preprocessor option is dropped; anything else is passed on. */
  lemma FilterByTable(args: seq<string>, arg: string, value: string)
    requires Scan(args).Kept?
    ensures arg in SINGLE_NO_DIST || arg in MULTI_NO_DIST || BeginsWithOneOf(SINGLE_NO_DIST_STARTS, arg) ==>
              Scan(args + [arg]) == Bad(NotDistributable(arg)) && Parse(args + [arg]) == Rejected(NotDistributable(arg))
    ensures arg in MULTI_CPP ==>
              && Scan(args + [arg]) == Bad(LastArgument(arg)) && Parse(args + [arg]) == Rejected(LastArgument(arg))
              && Scan(args + [arg, value]) == Scan(args)
    ensures (arg in SINGLE_CPP || BeginsWithOneOf(SINGLE_CPP_STARTS, arg)) && !NoDist(arg) && arg !in MULTI_CPP ==>
              Scan(args + [arg]) == Scan(args)
    ensures arg !in SINGLE_NO_DIST && arg !in MULTI_NO_DIST && !BeginsWithOneOf(SINGLE_NO_DIST_STARTS, arg)
            && arg !in SINGLE_CPP && !BeginsWithOneOf(SINGLE_CPP_STARTS, arg) && arg !in MULTI_CPP ==>
              Scan(args + [arg]) == Kept(Scan(args).args + [arg], Scan(args).compile || arg == "-c")
    ensures Parse(args) == if Scan(args).compile then Accepted(Scan(args).args) else Rejected(ForLink)
  {
    TablesMean(arg);
    ScanOneAfter(args, arg);
    if MultiCpp(arg) {
      MultiIsNotRefused(arg);
      ScanPairAfter(args, arg, value);
    }
    hide NoDist, MultiCpp, SingleCpp, Scan, SINGLE_NO_DIST, MULTI_NO_DIST, SINGLE_NO_DIST_STARTS, SINGLE_CPP, SINGLE_CPP_STARTS, MULTI_CPP;
  }

  /** A rejection for an argument that prevents distribution is final, whatever follows. */
  lemma RejectionIsFinal(args: seq<string>, arg: string, more: seq<string>)
    requires Scan(args) == Bad(NotDistributable(arg))
    ensures Parse(args + more) == Rejected(NotDistributable(arg)) && NoDist(arg)
  {
    ScanAppend(args, more);
    RefusedForReason(args);
  }

  lemma {:induction false} RefusedForReason(args: seq<string>)
    ensures Scan(args).Bad? && Scan(args).why.NotDistributable? ==> NoDist(Scan(args).why.arg)
    ensures Scan(args).Bad? && Scan(args).why.LastArgument? ==> MultiCpp(Scan(args).why.arg)
    ensures Scan(args).Bad? ==> !Scan(args).why.ForLink?
  {
    if args == [] || NoDist(args[0]) {
    } else if MultiCpp(args[0]) {
      if |args| > 1 {
        RefusedForReason(args[2..]);
        ScanPair(args);
      }
    } else {
      RefusedForReason(args[1..]);
      ScanSingle(args);
    }
  }

  /** A left part that ends inside a pair takes its value from the right part. */
  lemma {:induction false} ScanAcrossPair(a: seq<string>, b: seq<string>)
    requires Scan(a).Bad? && Scan(a).why.LastArgument? && b != []
    ensures a != [] && Composes(Scan(a[..|a| - 1]), Scan(b[1..]), Scan(a + b)) && Scan(a[..|a| - 1]).Kept?
  {
    hide NoDist, SingleCpp, Subsequence;
    if |a| == 1 {
      assert (a + b)[2..] == b[1..] && a[..0] == [];
      ComposesEmpty(Scan(b[1..]));
    } else if MultiCpp(a[0]) {
      var rest, front := a[2..], a[..|a| - 1];
      ScanAcrossPair(rest, b);
      DropAppend(a, b, 2);
      ScanPair(a + b);
      assert front[2..] == rest[..|rest| - 1];
    } else {
      var rest, front := a[1..], a[..|a| - 1];
      ScanSingle(a);
      ScanAcrossPair(rest, b);
      DropAppend(a, b, 1);
      ScanSingle(a + b);
      assert front[1..] == rest[..|rest| - 1];
      ScanSingle(front);
      ComposesFirst(a[0], Scan(front[1..]), Scan(b[1..]), Scan(rest + b));
    }
  }
}
