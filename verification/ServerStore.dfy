/** The client's database of servers: a flat store of string keys that encodes one
    record per server. */
module ServerStore {
  import opened Wrappers
  import opened Tokens
  import opened Totals

  const SECOND: nat := 1_000_000_000

  datatype Value = Text(text: string) | Number(n: nat) | Flag(b: bool)

  datatype Field = Name | Age | Compression | Compilers | Load | MaxJobs

  datatype Record = Record(age: nat, compression: bool, compilers: string, load: nat, maxJobs: nat)

  type Database = map<string, Value>

  function Suffix(f: Field): string {
    match f
    case Name => "_name"
    case Age => "_age"
    case Compression => "_compressionTypeSupported"
    case Compilers => "_supportedCompilers"
    case Load => "_currentLoad"
    case MaxJobs => "_maxJobs"
  }

  function Key(server: string, f: Field): string {
    server + Suffix(f)
  }

  function Encode(server: string, r: Record, f: Field): Value {
    match f
    case Name => Text(server)
    case Age => Number(r.age)
    case Compression => Flag(r.compression)
    case Compilers => Text(r.compilers)
    case Load => Number(r.load)
    case MaxJobs => Number(r.maxJobs)
  }

  predicate EndsWith(s: string, suffix: string) {
    |suffix| <= |s| && s[|s| - |suffix|..] == suffix
  }

  // --- Keys -------------------------------------------------------------------

  /** The last two characters of a suffix, which tell the six apart. */
  function Ending(f: Field): (char, char) {
    match f
    case Name => ('m', 'e')
    case Age => ('g', 'e')
    case Compression => ('e', 'd')
    case Compilers => ('r', 's')
    case Load => ('a', 'd')
    case MaxJobs => ('b', 's')
  }

  lemma SuffixEnding(f: Field)
    ensures |Suffix(f)| >= 4
    ensures (Suffix(f)[|Suffix(f)| - 2], Suffix(f)[|Suffix(f)| - 1]) == Ending(f)
  {
  }

  lemma KeyEnding(s: string, f: Field)
    ensures |Key(s, f)| >= 4 && (Key(s, f)[|Key(s, f)| - 2], Key(s, f)[|Key(s, f)| - 1]) == Ending(f)
  {
    SuffixEnding(f);
  }

  /** A key determines the server and the field, whatever the server is called. */
  lemma KeyInjective(s: string, f: Field, t: string, g: Field)
    requires Key(s, f) == Key(t, g)
    ensures s == t && f == g
  {
    KeyEnding(s, f);
    KeyEnding(t, g);
    assert s == Key(s, f)[..|Key(s, f)| - |Suffix(f)|];
    assert t == Key(t, g)[..|Key(t, g)| - |Suffix(g)|];
  }

  /** The scan for keys that end in "_name" finds exactly the name keys. */
  lemma NameKeys(s: string, f: Field)
    ensures EndsWith(Key(s, f), Suffix(Name)) <==> f == Name
  {
    KeyEnding(s, f);
    SuffixEnding(Name);
    var key := Key(s, f);
    if EndsWith(key, Suffix(Name)) {
      var tail := key[|key| - |Suffix(Name)|..];
      assert tail[|tail| - 2] == key[|key| - 2];
    }
    if f == Name {
      assert key[|key| - |Suffix(Name)|..] == Suffix(Name);
    }
  }

  // --- Records ----------------------------------------------------------------

  /** The store holds exactly the six keys of each record. */
  ghost predicate Represents(db: Database, records: map<string, Record>) {
    && (forall s, f :: s in records ==> Key(s, f) in db && db[Key(s, f)] == Encode(s, records[s], f))
    && (forall k :: k in db ==> exists s, f :: s in records && k == Key(s, f))
  }

  lemma RepresentsOnlyOne(db: Database, a: map<string, Record>, b: map<string, Record>)
    requires Represents(db, a) && Represents(db, b)
    ensures a == b
  {
    RepresentsSome(db, a, b);
    RepresentsSome(db, b, a);
    assert a.Keys == b.Keys;
  }

  lemma RepresentsSome(db: Database, a: map<string, Record>, b: map<string, Record>)
    requires Represents(db, a) && Represents(db, b)
    ensures forall s :: s in a ==> s in b && a[s] == b[s]
  {
    forall s | s in a ensures s in b && a[s] == b[s] {
      assert Key(s, Name) in db;
      var t, g :| t in b && Key(s, Name) == Key(t, g);
      KeyInjective(s, Name, t, g);
      assert forall f :: db[Key(s, f)] == Encode(s, a[s], f) == Encode(s, b[s], f);
      assert Encode(s, a[s], Age) == Encode(s, b[s], Age);
      assert Encode(s, a[s], Compression) == Encode(s, b[s], Compression);
      assert Encode(s, a[s], Compilers) == Encode(s, b[s], Compilers);
      assert Encode(s, a[s], Load) == Encode(s, b[s], Load);
      assert Encode(s, a[s], MaxJobs) == Encode(s, b[s], MaxJobs);
    }
  }

  /** A server has all six keys or none, and its name key tells which. */
  lemma AllOrNone(db: Database, records: map<string, Record>, s: string, f: Field)
    requires Represents(db, records)
    ensures Key(s, f) in db <==> s in records
  {
    if Key(s, f) in db {
      var t, g :| t in records && Key(s, f) == Key(t, g);
      KeyInjective(s, f, t, g);
    }
  }

  /** Writing all six keys of a server writes its record and leaves the others. */
  lemma PutRecord(db: Database, records: map<string, Record>, db': Database, s: string, r: Record)
    requires Represents(db, records)
    requires forall f :: Key(s, f) in db' && db'[Key(s, f)] == Encode(s, r, f)
    requires forall k :: k in db && (forall f :: k != Key(s, f)) ==> k in db' && db'[k] == db[k]
    requires forall k :: k in db' ==> k in db || exists f :: k == Key(s, f)
    ensures Represents(db', records[s := r])
  {
    var records' := records[s := r];
    forall t, f | t in records' ensures Key(t, f) in db' && db'[Key(t, f)] == Encode(t, records'[t], f) {
      if t != s {
        forall g ensures Key(t, f) != Key(s, g) {
          if Key(t, f) == Key(s, g) {
            KeyInjective(t, f, s, g);
          }
        }
      }
    }
    forall k | k in db' ensures exists t, f :: t in records' && k == Key(t, f) {
      if k in db {
        var t, f :| t in records && k == Key(t, f);
        assert t in records' && k == Key(t, f);
      } else {
        var f :| k == Key(s, f);
        assert s in records' && k == Key(s, f);
      }
    }
  }

  /** Deleting all six keys of a server removes its record and leaves the others. */
  lemma DropRecord(db: Database, records: map<string, Record>, db': Database, s: string)
    requires Represents(db, records)
    requires forall k :: k in db' <==> k in db && forall f :: k != Key(s, f)
    requires forall k :: k in db' ==> db'[k] == db[k]
    ensures Represents(db', records - {s})
  {
    forall t, f | t in records - {s} ensures Key(t, f) in db' && db'[Key(t, f)] == Encode(t, records[t], f) {
      forall g ensures Key(t, f) != Key(s, g) {
        if Key(t, f) == Key(s, g) {
          KeyInjective(t, f, s, g);
        }
      }
    }
    forall k | k in db' ensures exists t, f :: t in records - {s} && k == Key(t, f) {
      var t, f :| t in records && k == Key(t, f);
      assert t != s;
      assert t in records - {s} && k == Key(t, f);
    }
  }

  // --- Compiler lists ---------------------------------------------------------

  /** The names before the slashes; nothing after the last slash is lost, but an
      empty rest is no name. */
  function Names(list: string, name: string := ""): seq<string>
    decreases |list|
  {
    if list == "" then (if name == "" then [] else [name])
    else if list[0] == '/' then [name] + Names(list[1..], "")
    else Names(list[1..], name + [list[0]])
  }

  function Render(names: seq<string>): string {
    if names == [] then "" else names[0] + "/" + Render(names[1..])
  }

  /** What is left of one name: nothing if it is the queried one and not supported. */
  function KeepOne(name: string, queried: string, supported: bool): seq<string> {
    if name == queried && !supported then [] else [name]
  }

  /** Every other name stays; the queried one only if it is supported. */
  function Keep(names: seq<string>, queried: string, supported: bool): seq<string> {
    if names == [] then []
    else KeepOne(names[0], queried, supported) + Keep(names[1..], queried, supported)
  }

  function NewCompilers(known: Option<string>, queried: string, supported: bool): string {
    match known
    case Some(list) => Render(Keep(Names(list), queried, supported))
    case None => if supported then queried + "/" else ""
  }

  lemma {:induction false} NamesAtSlash(a: string, b: string, name: string)
    requires '/' !in a
    ensures Names(a + "/" + b, name) == [name + a] + Names(b)
    decreases |a|
  {
    if a == "" {
      assert (a + "/" + b)[0] == '/' && (a + "/" + b)[1..] == b;
      assert name + a == name;
    } else {
      NamesAtSlash(a[1..], b, name + [a[0]]);
      assert (a + "/" + b)[0] == a[0] && (a + "/" + b)[1..] == a[1..] + "/" + b;
      assert name + [a[0]] + a[1..] == name + a;
    }
  }

  lemma {:induction false} NamesAtEnd(a: string, name: string)
    requires '/' !in a && name + a != ""
    ensures Names(a, name) == [name + a]
    decreases |a|
  {
    if a == "" {
      assert name + a == name;
    } else {
      NamesAtEnd(a[1..], name + [a[0]]);
      assert name + [a[0]] + a[1..] == name + a;
    }
  }

  ghost predicate SlashFree(names: seq<string>) {
    forall k | 0 <= k < |names| :: '/' !in names[k]
  }

  lemma {:induction false} NamesOfRendered(names: seq<string>)
    requires SlashFree(names)
    ensures Names(Render(names)) == names
  {
    if names == [] {
    } else {
      NamesAtSlash(names[0], Render(names[1..]), "");
      assert "" + names[0] == names[0];
      NamesOfRendered(names[1..]);
    }
  }

  lemma {:induction false} KeepSlashFree(names: seq<string>, queried: string, supported: bool)
    requires SlashFree(names)
    ensures SlashFree(Keep(names, queried, supported))
    ensures forall n :: n in Keep(names, queried, supported) <==> n in names && (n != queried || supported)
  {
    if names == [] {
    } else {
      KeepSlashFree(names[1..], queried, supported);
      assert names == [names[0]] + names[1..];
    }
  }

  /** An update of a stored list keeps every other compiler in order, keeps the
      queried one only if it is supported, and never adds one. */
  lemma UpdateKeepsOthers(names: seq<string>, queried: string, supported: bool)
    requires SlashFree(names)
    ensures Names(NewCompilers(Some(Render(names)), queried, supported)) == Keep(names, queried, supported)
    ensures forall n :: n in Keep(names, queried, supported) <==> n in names && (n != queried || supported)
  {
    NamesOfRendered(names);
    KeepSlashFree(names, queried, supported);
    NamesOfRendered(Keep(names, queried, supported));
  }

  lemma {:induction false} RenderAppend(a: seq<string>, b: seq<string>)
    ensures Render(a + b) == Render(a) + Render(b)
  {
    if a == [] {
      assert a + b == b;
    } else {
      RenderAppend(a[1..], b);
      assert (a + b)[1..] == a[1..] + b;
      Regroup(a[0] + "/", Render(a[1..]), Render(b));
    }
  }

  lemma KeepFirst(names: seq<string>, queried: string, supported: bool)
    requires names != []
    ensures Keep(names, queried, supported) == KeepOne(names[0], queried, supported) + Keep(names[1..], queried, supported)
  {
  }

  lemma {:induction false} KeepAppend(a: seq<string>, b: seq<string>, queried: string, supported: bool)
    ensures Keep(a + b, queried, supported) == Keep(a, queried, supported) + Keep(b, queried, supported)
  {
    if a == [] {
      assert a + b == b;
    } else {
      KeepAppend(a[1..], b, queried, supported);
      KeepFirst(a, queried, supported);
      KeepFirst(a + b, queried, supported);
      assert (a + b)[0] == a[0] && (a + b)[1..] == a[1..] + b;
      hide Keep;
      Regroup(KeepOne(a[0], queried, supported), Keep(a[1..], queried, supported), Keep(b, queried, supported));
    }
  }

  lemma KeepSnoc(names: seq<string>, name: string, queried: string, supported: bool)
    ensures Render(Keep(names + [name], queried, supported)) ==
            Render(Keep(names, queried, supported)) + if name == queried && !supported then "" else name + "/"
  {
    KeepAppend(names, [name], queried, supported);
    KeepFirst([name], queried, supported);
    assert [name][1..] == [] && KeepOne(name, queried, supported) + [] == KeepOne(name, queried, supported);
    RenderAppend(Keep(names, queried, supported), KeepOne(name, queried, supported));
    assert Render([name]) == name + "/" by {
      assert [name][1..] == [] && name + "/" + "" == name + "/";
    }
  }

  /** What becomes of a server's list of compilers, text by text: a new server has the
      queried compiler if that is supported; of a stored list, each name up to a slash
      is copied with its slash, except for the queried one if it is not supported. */
  lemma CompilersByName(name: string, rest: string, queried: string, supported: bool)
    requires '/' !in name
    ensures NewCompilers(None, queried, supported) == if supported then queried + "/" else ""
    ensures NewCompilers(Some(""), queried, supported) == ""
    ensures NewCompilers(Some(name + "/" + rest), queried, supported) ==
            (if name != queried || supported then name + "/" else "") + NewCompilers(Some(rest), queried, supported)
    ensures name != "" ==>
              NewCompilers(Some(name), queried, supported) == if name != queried || supported then name + "/" else ""
  {
    assert "" + name == name;
    NoNames(queried, supported);
    NamesAtSlash(name, rest, "");
    KeepAppend([name], Names(rest), queried, supported);
    RenderAppend(Keep([name], queried, supported), Keep(Names(rest), queried, supported));
    KeepSnoc([], name, queried, supported);
    assert [] + [name] == [name] && "" + (name + "/") == name + "/";
    if name != "" {
      NamesAtEnd(name, "");
    }
  }

  lemma NoNames(queried: string, supported: bool)
    ensures Names("") == [] && Render(Keep([], queried, supported)) == ""
  {
  }

  lemma CutName(list: string, pos: nat, name: string, next: nat)
    requires IsLine(list, pos, '/', name, next) && pos < |list|
    ensures Names(list[pos..]) == [name] + Names(list[next..])
  {
    assert "" + name == name;
    if pos + |name| < |list| {
      NamesAtSlash(name, list[next..], "");
      assert list[pos..] == name + "/" + list[next..];
    } else {
      NamesAtEnd(name, "");
      assert list[pos..] == name && list[next..] == "";
    }
  }

  /** The loop over the stored list. */
  method UpdateCompilers(known: Option<string>, queried: string, supported: bool) returns (list: string)
    ensures list == NewCompilers(known, queried, supported)
  {
    NoNames(queried, supported);
    hide Keep, Render, Names;
    list := "";
    if known.Some? {
      var stored := known.value;
      var pos := 0;
      ghost var seen: seq<string> := [];
      assert stored[0..] == stored;
      var ok, compiler, next := GetLine(stored, pos, '/');
      while ok
        invariant pos <= |stored| && (ok <==> pos < |stored|) && IsLine(stored, pos, '/', compiler, next)
        invariant seen + Names(stored[pos..]) == Names(stored)
        invariant list == Render(Keep(seen, queried, supported))
        decreases |stored| - pos
      {
        CutName(stored, pos, compiler, next);
        KeepSnoc(seen, compiler, queried, supported);
        Regroup(seen, [compiler], Names(stored[next..]));
        if compiler == queried {
          if supported {
            list := list + (compiler + "/");
          }
        } else {
          list := list + (compiler + "/");
        }
        seen := seen + [compiler];
        pos := next;
        ok, compiler, next := GetLine(stored, pos, '/');
      }
      assert stored[pos..] == "" && seen + [] == seen;
    } else {
      if supported {
        list := queried + "/";
      }
    }
  }
}
