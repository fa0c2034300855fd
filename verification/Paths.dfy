/** The parts of a path name that the client looks at. */
module Paths {

  /** The position after the last occurrence of c, or 0. */
  function After(s: string, c: char): (k: nat)
    ensures k <= |s|
    ensures c !in s[k..]
    ensures k > 0 ==> s[k - 1] == c
  {
    if s == "" then 0
    else if s[|s| - 1] == c then |s|
    else
      var k := After(s[..|s| - 1], c);
      assert s[k..] == s[..|s| - 1][k..] + [s[|s| - 1]];
      k
  }

  function FileName(path: string): string {
    path[After(path, '/')..]
  }

  /** Where the extension of a file name begins. A name that is one or two dots,
      or whose only dot comes first, has none. */
  function ExtensionStart(name: string): (k: nat)
    ensures k <= |name|
  {
    var k := After(name, '.');
    if k <= 1 || name == ".." then |name| else k - 1
  }

  function Extension(path: string): string {
    var name := FileName(path);
    name[ExtensionStart(name)..]
  }

  function Stem(path: string): string {
    var name := FileName(path);
    name[..ExtensionStart(name)]
  }

  lemma StemAndExtension(path: string)
    ensures Stem(path) + Extension(path) == FileName(path)
    ensures Extension(path) != "" ==> Stem(path) != "" && Extension(path)[0] == '.' && '.' !in Extension(path)[1..]
  {
    var name := FileName(path);
    var k := After(name, '.');
    assert name[..ExtensionStart(name)] + name[ExtensionStart(name)..] == name;
    if Extension(path) != "" {
      assert Extension(path)[1..] == name[k..];
    }
  }

  lemma LastInTail(s: string, k: nat)
    requires k <= |s|
    ensures k < |s| ==> s[|s| - 1] in s[k..]
  {
    if k < |s| {
      assert s[k..][|s| - 1 - k] == s[|s| - 1];
    }
  }

  lemma {:induction false} AfterIsLast(s: string, c: char, k: nat)
    requires k <= |s| && c !in s[k..] && (k > 0 ==> s[k - 1] == c)
    ensures After(s, c) == k
  {
    LastInTail(s, k);
    if s == "" || s[|s| - 1] == c {
    } else {
      var front := s[..|s| - 1];
      assert s[k..] == front[k..] + [s[|s| - 1]];
      AfterIsLast(front, c, k);
    }
  }

  /** The file name is what follows the last slash, or the whole path. */
  lemma NameAfterSlash(directory: string, name: string)
    requires '/' !in name
    ensures FileName(directory + "/" + name) == name && FileName(name) == name
    ensures Stem(directory + "/" + name) == Stem(name) && Extension(directory + "/" + name) == Extension(name)
  {
    var path := directory + "/" + name;
    assert path[|directory| + 1..] == name && name[0..] == name;
    AfterIsLast(path, '/', |directory| + 1);
    AfterIsLast(name, '/', 0);
  }

  lemma LastDot(stem: string, rest: string)
    requires '.' !in rest
    ensures After(stem + "." + rest, '.') == |stem| + 1 && After(rest, '.') == 0
  {
    assert (stem + "." + rest)[|stem| + 1..] == rest && rest[0..] == rest;
    AfterIsLast(stem + "." + rest, '.', |stem| + 1);
    AfterIsLast(rest, '.', 0);
  }

  lemma CutAt(stem: string, rest: string)
    requires '/' !in stem && '/' !in rest
    ensures (stem + "." + rest)[..|stem|] == stem && (stem + "." + rest)[|stem|..] == "." + rest
    ensures '/' !in stem + "." + rest
  {
  }

  lemma CutName(name: string)
    requires '/' !in name
    ensures var k := After(name, '.');
            if k <= 1 || name == ".." then Stem(name) == name && Extension(name) == ""
            else Stem(name) == name[..k - 1] && Extension(name) == name[k - 1..]
  {
    hide FileName, After;
    NameAfterSlash("", name);
    Whole(name);
  }

  lemma Whole(name: string)
    ensures name[..|name|] == name && name[|name|..] == ""
  {
  }

  /** A file name is cut before its last dot, unless that comes first; a name without
      a dot, and the name that is two dots, are all stem. */
  lemma NameAtDot(stem: string, rest: string)
    requires '/' !in stem && '/' !in rest && '.' !in rest
    ensures stem != "" && stem + "." + rest != ".." ==>
              Stem(stem + "." + rest) == stem && Extension(stem + "." + rest) == "." + rest
    ensures stem == "" || stem + "." + rest == ".." ==> Extension(stem + "." + rest) == ""
    ensures Stem(rest) == rest && Extension(rest) == ""
  {
    CutAt(stem, rest);
    LastDot(stem, rest);
    CutName(stem + "." + rest);
    CutName(rest);
    hide FileName, After, Stem, Extension;
  }
}
