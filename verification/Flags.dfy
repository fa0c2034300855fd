/** The flag tables that both parsers consult, and the facts about their entries
    that keep the two parsers in step. */
module Flags {

  datatype Language = NONE | C | CXX

  predicate Listed(table: seq<string>, arg: string) {
    table != [] && (table[0] == arg || Listed(table[1..], arg))
  }

  /** Whether some entry of the table is a prefix of the argument. */
  predicate PrefixListed(table: seq<string>, arg: string) {
    table != [] && (table[0] <= arg || PrefixListed(table[1..], arg))
  }

  lemma {:induction false} ListedIsMember(table: seq<string>, arg: string)
    ensures Listed(table, arg) <==> arg in table
  {
    if table == [] {
    } else {
      ListedIsMember(table[1..], arg);
      assert table == [table[0]] + table[1..];
    }
  }

  lemma {:induction false} PrefixListedIsMember(table: seq<string>, arg: string)
    ensures PrefixListed(table, arg) <==> exists t :: t in table && t <= arg
  {
    if table == [] {
    } else {
      var tail := table[1..];
      PrefixListedIsMember(tail, arg);
      assert table == [table[0]] + tail;
      if table[0] <= arg {
        assert table[0] in table;
      } else if PrefixListed(tail, arg) {
        var t :| t in tail && t <= arg;
        assert t in table;
      }
    }
  }

  // Options that affect only the preprocessor. The long table is written in four parts.
  const SINGLE_CPP_D: seq<string> := ["-C", "-CC", "-dD", "-dI", "-dM", "-dN", "-dU", "-H"]
  const SINGLE_CPP_F: seq<string> := [
    "-fdebug-cpp", "-fdirectives-only", "-fdollars-in-identifiers", "-fextended-identifiers",
    "-flarge-source-files", "-fmax-include-depth", "-fno-canonical-system-headers", "-fpch-deps",
    "-fpch-preprocess", "-fpreprocessed", "-ftrack-macro-expansion", "-fworking-directory"]
  const SINGLE_CPP_M: seq<string> := ["-M", "-MD", "-MG", "-MM", "-MMD", "-MP", "-Mno-modules"]
  const SINGLE_CPP_R: seq<string> := [
    "-no-integrated-cpp", "-P", "-pthread", "-remap", "-traditional", "-traditional-cpp", "-trigraphs", "-undef"]
  const SINGLE_CPP: seq<string> := SINGLE_CPP_D + SINGLE_CPP_F + SINGLE_CPP_M + SINGLE_CPP_R

  const MULTI_CPP: seq<string> := [
    "-imacros", "-include", "-Xpreprocessor", "-MT", "-MF", "-MQ", "-I", "-D", "-U", "-iquote", "-isystem",
    "-idirafter"]

  const SINGLE_CPP_STARTS: seq<string> := ["-I", "-D", "-U", "-Wp,"]

  // Options with which nothing is distributed.
  const MULTI_NO_DIST: seq<string> := ["-dumpbase", "-dumpbase-ext", "-dumpdir"]

  const SINGLE_NO_DIST: seq<string> := [
    "-M", "-MM", "-E", "-dr", "-Wa,-a", "-Wa,--MD", "-fbranch-probabilities", "--coverage", "-fprofile-arcs",
    "-ftest-coverage", "-include-pch"]

  const SINGLE_NO_DIST_STARTS: seq<string> := [
    "-fplugin=", "-specs=", "-ffile-prefix-map=", "-fprofile-use", "-fauto-profile",
    "-finstrument-functions-exclude", "-save-temps", "-time", "-fdump", "-fdebug-prefix-map=",
    "-fprofile-prefix-map=", "-fmacro-prefix-map="]

  const EXTENSIONS_C: seq<string> := [".c", ".i"]
  const EXTENSIONS_CXX: seq<string> := [".C", ".cc", ".cxx", ".cpp", ".c++", ".cp", ".CPP", ".ii"]
  const EXTENSIONS: seq<string> := [".c", ".C", ".cc", ".cxx", ".cpp", ".c++", ".cp", ".CPP", ".i", ".ii"]

  const X_ARGS_C: seq<string> := ["c", "cpp-output"]
  const X_ARGS_CXX: seq<string> := ["c++", "c++-cpp-output"]

  predicate NoDist(arg: string) {
    Listed(SINGLE_NO_DIST, arg) || Listed(MULTI_NO_DIST, arg) || PrefixListed(SINGLE_NO_DIST_STARTS, arg)
  }

  predicate SingleCpp(arg: string) {
    Listed(SINGLE_CPP, arg) || PrefixListed(SINGLE_CPP_STARTS, arg)
  }

  predicate MultiCpp(arg: string) {
    Listed(MULTI_CPP, arg)
  }

  predicate IsMode(arg: string) {
    arg == "-c" || arg == "-S"
  }

  /** No server table mentions the argument. */
  predicate Inert(arg: string) {
    !NoDist(arg) && !SingleCpp(arg) && !MultiCpp(arg)
  }

  /** Whether one of the options is the argument, or the beginning of it. */
  predicate BeginsWithOneOf(table: seq<string>, arg: string) {
    exists k :: 0 <= k < |table| && table[k] <= arg
  }

  /** Which arguments prevent distribution and which concern only the preprocessor,
      in terms of the tables. */
  lemma TablesMean(arg: string)
    ensures NoDist(arg) <==> arg in SINGLE_NO_DIST || arg in MULTI_NO_DIST || BeginsWithOneOf(SINGLE_NO_DIST_STARTS, arg)
    ensures SingleCpp(arg) <==> arg in SINGLE_CPP || BeginsWithOneOf(SINGLE_CPP_STARTS, arg)
    ensures MultiCpp(arg) <==> arg in MULTI_CPP
  {
    ListedIsMember(SINGLE_NO_DIST, arg);
    ListedIsMember(MULTI_NO_DIST, arg);
    ListedIsMember(SINGLE_CPP, arg);
    ListedIsMember(MULTI_CPP, arg);
    PrefixListedBegins(SINGLE_NO_DIST_STARTS, arg);
    PrefixListedBegins(SINGLE_CPP_STARTS, arg);
    hide Listed, PrefixListed, SINGLE_NO_DIST, MULTI_NO_DIST, SINGLE_NO_DIST_STARTS, SINGLE_CPP, SINGLE_CPP_STARTS, MULTI_CPP;
  }

  lemma PrefixListedBegins(table: seq<string>, arg: string)
    ensures PrefixListed(table, arg) <==> BeginsWithOneOf(table, arg)
  {
    PrefixListedIsMember(table, arg);
    if t :| t in table && t <= arg {
      var k :| 0 <= k < |table| && table[k] == t;
    }
  }

  /** The language that a recognised -x value or a known extension stands for. */
  function LanguageOfX(value: string): Language {
    if Listed(X_ARGS_C, value) then C else if Listed(X_ARGS_CXX, value) then CXX else NONE
  }

  function LanguageOfExtension(ext: string): Language {
    if Listed(EXTENSIONS_C, ext) then C else if Listed(EXTENSIONS_CXX, ext) then CXX else NONE
  }

  // --- Facts about the tables -----------------------------------------------

  predicate Dashed(t: string) {
    |t| >= 2 && t[0] == '-'
  }

  /** What tells two-part preprocessor options from one-part ones. */
  predicate LooksMulti(t: string) {
    && Dashed(t)
    && (|| t[1] == 'i' || t[1] == 'X'
        || (|t| == 2 && (t[1] == 'I' || t[1] == 'D' || t[1] == 'U'))
        || (|t| == 3 && t[1] == 'M' && (t[2] == 'T' || t[2] == 'F' || t[2] == 'Q')))
  }

  /** What the options that the client treats specially look like. */
  predicate LooksSpecial(t: string) {
    && Dashed(t)
    && (|| t[1] == 'x' || t[1] == 'o'
        || (|t| == 2 && (t[1] == 'c' || t[1] == 'S'))
        || (|t| > 2 && t[1] == 't' && t[2] == 'a')
        || (|t| > 2 && t[1] == '-' && t[2] == 't'))
  }

  predicate OnePart(t: string) {
    Dashed(t) && !LooksMulti(t) && !LooksSpecial(t)
  }

  predicate Ordinary(t: string) {
    Dashed(t) && |t| > 2 && !LooksSpecial(t)
  }

  lemma SingleCppD()
    ensures forall t | t in SINGLE_CPP_D :: OnePart(t)
  {
  }

  lemma SingleCppF()
    ensures forall t | t in SINGLE_CPP_F :: OnePart(t)
  {
  }

  lemma SingleCppM()
    ensures forall t | t in SINGLE_CPP_M :: OnePart(t)
  {
  }

  lemma SingleCppR()
    ensures forall t | t in SINGLE_CPP_R :: OnePart(t)
  {
  }

  lemma SingleCppShape(arg: string)
    ensures Listed(SINGLE_CPP, arg) ==> OnePart(arg)
  {
    ListedIsMember(SINGLE_CPP, arg);
    SingleCppD();
    SingleCppF();
    SingleCppM();
    SingleCppR();
    InParts(SINGLE_CPP_D, SINGLE_CPP_F, SINGLE_CPP_M, SINGLE_CPP_R, arg);
  }

  lemma InParts(a: seq<string>, b: seq<string>, c: seq<string>, d: seq<string>, arg: string)
    ensures arg in a + b + c + d ==> arg in a || arg in b || arg in c || arg in d
  {
  }

  lemma MultiCppEntries()
    ensures forall t | t in MULTI_CPP :: LooksMulti(t) && !LooksSpecial(t)
  {
  }

  lemma MultiCppShape(arg: string)
    ensures MultiCpp(arg) ==> Dashed(arg) && LooksMulti(arg) && !LooksSpecial(arg)
  {
    ListedIsMember(MULTI_CPP, arg);
    MultiCppEntries();
  }

  lemma StartsShape(arg: string)
    ensures PrefixListed(SINGLE_CPP_STARTS, arg) ==> Dashed(arg) && arg[1] !in "xocSt-"
  {
    PrefixListedIsMember(SINGLE_CPP_STARTS, arg);
    assert forall t | t in SINGLE_CPP_STARTS :: Dashed(t) && t[1] !in "xocSt-";
  }

  lemma SingleNoDistEntries()
    ensures forall t | t in SINGLE_NO_DIST :: Dashed(t) && !LooksSpecial(t)
  {
  }

  lemma SingleNoDistShape(arg: string)
    ensures Listed(SINGLE_NO_DIST, arg) ==> Dashed(arg) && !LooksSpecial(arg)
  {
    ListedIsMember(SINGLE_NO_DIST, arg);
    SingleNoDistEntries();
  }

  lemma MultiNoDistShape(arg: string)
    ensures Listed(MULTI_NO_DIST, arg) ==> Dashed(arg) && !LooksSpecial(arg)
  {
    ListedIsMember(MULTI_NO_DIST, arg);
    assert forall t | t in MULTI_NO_DIST :: Dashed(t) && !LooksSpecial(t);
  }

  lemma NoDistStartsEntries()
    ensures forall t | t in SINGLE_NO_DIST_STARTS :: Ordinary(t)
  {
  }

  lemma NoDistStartsShape(arg: string)
    ensures PrefixListed(SINGLE_NO_DIST_STARTS, arg) ==> Ordinary(arg)
  {
    PrefixListedIsMember(SINGLE_NO_DIST_STARTS, arg);
    NoDistStartsEntries();
    if PrefixListed(SINGLE_NO_DIST_STARTS, arg) {
      var t :| t in SINGLE_NO_DIST_STARTS && t <= arg;
      OrdinaryPrefix(t, arg);
    }
  }

  lemma OrdinaryPrefix(t: string, arg: string)
    requires Ordinary(t) && t <= arg
    ensures Ordinary(arg)
  {
    assert arg[0] == t[0] && arg[1] == t[1] && arg[2] == t[2];
  }

  /** An option that takes its value from the next argument is never taken for a
      one-part option first. */
  lemma MultiIsNotSingle(arg: string)
    requires MultiCpp(arg)
    ensures !Listed(SINGLE_CPP, arg)
  {
    SingleCppShape(arg);
    MultiCppShape(arg);
  }

  /** What tells the two-part preprocessor options from those that prevent
      distribution: they are short, or not listed under this letter. */
  predicate ShortOrOther(t: string) {
    Dashed(t) && (t[1] == 'i' ==> |t| < 12) && t[1] !in "dfst"
  }

  lemma MultiCppShort()
    ensures forall t | t in MULTI_CPP :: ShortOrOther(t)
  {
  }

  lemma SingleNoDistLong()
    ensures forall t | t in SINGLE_NO_DIST :: LooksMulti(t) ==> !ShortOrOther(t)
  {
  }

  lemma MultiNoDistOther()
    ensures forall t | t in MULTI_NO_DIST :: !ShortOrOther(t)
  {
  }

  lemma NoDistStartsOther()
    ensures forall t | t in SINGLE_NO_DIST_STARTS :: |t| > 1 && t[1] in "fst"
  {
  }

  lemma NoDistStartsLetter(arg: string)
    ensures PrefixListed(SINGLE_NO_DIST_STARTS, arg) ==> |arg| > 1 && arg[1] in "fst"
  {
    PrefixListedIsMember(SINGLE_NO_DIST_STARTS, arg);
    NoDistStartsOther();
    if PrefixListed(SINGLE_NO_DIST_STARTS, arg) {
      var t :| t in SINGLE_NO_DIST_STARTS && t <= arg;
      assert arg[1] == t[1];
    }
  }

  /** No option that takes its value from the next argument prevents distribution. */
  lemma MultiIsNotRefused(arg: string)
    requires MultiCpp(arg)
    ensures !NoDist(arg)
  {
    ListedIsMember(MULTI_CPP, arg);
    ListedIsMember(SINGLE_NO_DIST, arg);
    ListedIsMember(MULTI_NO_DIST, arg);
    MultiCppShape(arg);
    MultiCppShort();
    SingleNoDistLong();
    MultiNoDistOther();
    NoDistStartsLetter(arg);
  }

  /** Arguments that do not begin with a dash, and the options that the client
      treats specially, are in no table of the server. */
  lemma SpecialIsInert(arg: string)
    requires !Dashed(arg) || LooksSpecial(arg)
    ensures Inert(arg)
  {
    SingleCppShape(arg);
    MultiCppShape(arg);
    StartsShape(arg);
    SingleNoDistShape(arg);
    MultiNoDistShape(arg);
    NoDistStartsShape(arg);
  }

  /** Every input file extension belongs to a language. */
  lemma KnownExtension(ext: string)
    ensures Listed(EXTENSIONS, ext) <==> LanguageOfExtension(ext) != NONE
  {
    ListedIsMember(EXTENSIONS, ext);
    ListedIsMember(EXTENSIONS_C, ext);
    ListedIsMember(EXTENSIONS_CXX, ext);
  }

  lemma NoEmptyExtension(ext: string)
    requires Listed(EXTENSIONS, ext)
    ensures ext != ""
  {
    ListedIsMember(EXTENSIONS, ext);
    assert forall t | t in EXTENSIONS :: |t| > 0;
  }

  lemma UndashedIsInert(value: string)
    requires !("-" <= value)
    ensures Inert(value) && value != "-c"
  {
    assert Dashed(value) ==> "-" <= value;
    SpecialIsInert(value);
  }

  lemma KnownXIsUndashed(value: string)
    requires LanguageOfX(value) != NONE
    ensures !Dashed(value)
  {
    ListedIsMember(X_ARGS_C, value);
    ListedIsMember(X_ARGS_CXX, value);
    assert forall t | t in X_ARGS_C :: |t| > 0 && t[0] == 'c';
    assert forall t | t in X_ARGS_CXX :: |t| > 0 && t[0] == 'c';
  }
}
