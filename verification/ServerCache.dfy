/** The client's cache of servers: how it is brought up to date when the client
    starts, and which servers the client then knows. */
module ServerCache {
  import opened Wrappers
  import opened ServerStore

  datatype Server = Server(currentLoad: nat, name: string)

  datatype Answer = Answer(compilerSupported: bool, compressionSupported: bool, currentLoad: nat, maxJobs: nat)

  datatype Reply = Ok(answer: Answer) | Unavailable | OtherError

  /** What one call meets: the configuration, how servers reply to a query, and
      what the clock shows when a server is scanned and when it is updated. */
  datatype World = World(
    compression: string, config: seq<string>, query: string -> Reply, scanned: string -> nat, updated: string -> nat)

  function NamesOf(l: seq<Server>): set<string> {
    set k | 0 <= k < |l| :: l[k].name
  }

  ghost predicate NoRepeats(l: seq<Server>) {
    forall i, j | 0 <= i < j < |l| :: l[i].name != l[j].name
  }

  lemma AddName(l: seq<Server>, x: Server)
    ensures NamesOf(l + [x]) == NamesOf(l) + {x.name}
    ensures NoRepeats(l) && x.name !in NamesOf(l) ==> NoRepeats(l + [x])
  {
    var m := l + [x];
    assert m[|l|] == x;
    assert forall k :: 0 <= k < |l| ==> m[k] == l[k];
    forall s | s in NamesOf(l) + {x.name} ensures s in NamesOf(m) {
      if s in NamesOf(l) {
        var k :| 0 <= k < |l| && l[k].name == s;
        assert m[k].name == s;
      } else {
        assert m[|l|].name == s;
      }
    }
    forall i, j | NoRepeats(l) && x.name !in NamesOf(l) && 0 <= i < j < |m| ensures m[i].name != m[j].name {
      assert m[i].name in NamesOf(l);
    }
  }

  // --- What a call should come to ---------------------------------------------

  function Previous(records: map<string, Record>, s: string): Option<string> {
    if s in records then Some(records[s].compilers) else None
  }

  function Updated(known: Option<string>, compiler: string, a: Answer, now: nat): Record {
    Record(now / SECOND, a.compressionSupported, NewCompilers(known, compiler, a.compilerSupported),
           if a.currentLoad < 100 then a.currentLoad else 100, a.maxJobs)
  }

  /** The record may be used as it is: the compression type is unchanged and the
      stored age is at most ten seconds. */
  predicate Fresh(records: map<string, Record>, changed: bool, w: World, s: string) {
    !changed && s in records && w.scanned(s) - records[s].age * SECOND <= 10 * SECOND
  }

  predicate Survives(records: map<string, Record>, changed: bool, w: World, s: string) {
    (s in records || s in w.config) && (Fresh(records, changed, w, s) || w.query(s).Ok?)
  }

  function After(records: map<string, Record>, changed: bool, w: World, compiler: string, s: string): Record
    requires Survives(records, changed, w, s)
  {
    if Fresh(records, changed, w, s) then records[s]
    else Updated(Previous(records, s), compiler, w.query(s).answer, w.updated(s))
  }

  // --- The scan ---------------------------------------------------------------

  /** The servers whose name key is no longer among the keys to come. */
  ghost function Scanned(records: map<string, Record>, rest: set<string>): set<string> {
    set s | s in records && Key(s, Name) !in rest
  }

  lemma ScannedOther(db: Database, records: map<string, Record>, rest: set<string>, key: string)
    requires Represents(db, records) && key in db && !EndsWith(key, Suffix(Name))
    ensures Scanned(records, rest - {key}) == Scanned(records, rest)
  {
    forall s ensures Key(s, Name) != key {
      NameKeys(s, Name);
    }
  }

  lemma ScannedName(db: Database, records: map<string, Record>, rest: set<string>, key: string) returns (s: string)
    requires Represents(db, records) && key in db && key in rest && EndsWith(key, Suffix(Name))
    ensures s in records && key == Key(s, Name) && db[key] == Text(s)
    ensures Scanned(records, rest - {key}) == Scanned(records, rest) + {s} && s !in Scanned(records, rest)
    ensures db[Key(s, Age)] == Number(records[s].age) && db[Key(s, Load)] == Number(records[s].load)
    ensures Key(s, Age) in db && Key(s, Load) in db
  {
    var f;
    s, f :| s in records && key == Key(s, f);
    NameKeys(s, f);
    forall t | Key(t, Name) == key ensures t == s {
      KeyInjective(t, Name, s, Name);
    }
    assert db[Key(s, Name)] == Encode(s, records[s], Name);
    assert db[Key(s, Age)] == Encode(s, records[s], Age);
    assert db[Key(s, Load)] == Encode(s, records[s], Load);
  }

  lemma SixKeysDiffer(s: string)
    ensures forall f, g :: Key(s, f) == Key(s, g) ==> f == g
  {
    forall f, g | Key(s, f) == Key(s, g) ensures f == g {
      KeyInjective(s, f, s, g);
    }
  }

  /** Of the servers in `done`, the scan has put each into the vector it belongs to. */
  ghost predicate Classified(records: map<string, Record>, changed: bool, w: World, done: set<string>,
                         existing: seq<Server>, expired: seq<Server>, available: seq<Server>) {
    && NoRepeats(existing) && NoRepeats(expired) && NoRepeats(available)
    && (forall s :: s in NamesOf(existing) <==> s in done && changed)
    && (forall s :: s in NamesOf(expired) <==> s in done && !changed && !Fresh(records, changed, w, s))
    && (forall s :: s in NamesOf(available) <==> s in done && Fresh(records, changed, w, s))
    && Loads(records, available)
  }

  ghost predicate Loads(records: map<string, Record>, available: seq<Server>) {
    forall k | 0 <= k < |available| :: available[k].name in records && available[k].currentLoad == records[available[k].name].load
  }

  lemma Classify(records: map<string, Record>, changed: bool, w: World, done: set<string>,
                 existing: seq<Server>, expired: seq<Server>, available: seq<Server>, x: Server)
    requires Classified(records, changed, w, done, existing, expired, available)
    requires x.name in records && x.name !in done && x.currentLoad == records[x.name].load
    ensures changed ==> Classified(records, changed, w, done + {x.name}, existing + [x], expired, available)
    ensures !changed && !Fresh(records, changed, w, x.name) ==>
              Classified(records, changed, w, done + {x.name}, existing, expired + [x], available)
    ensures Fresh(records, changed, w, x.name) ==>
              Classified(records, changed, w, done + {x.name}, existing, expired, available + [x])
  {
    if changed {
      AddName(existing, x);
    } else if Fresh(records, changed, w, x.name) {
      AddName(available, x);
    } else {
      AddName(expired, x);
    }
  }

  function PutFive(db: Database, s: string, r: Record): Database {
    db[Key(s, Name) := Text(s)][Key(s, Age) := Number(r.age)][Key(s, Compression) := Flag(r.compression)]
      [Key(s, Load) := Number(r.load)][Key(s, MaxJobs) := Number(r.maxJobs)]
  }

  function PutSix(db: Database, s: string, r: Record): Database {
    PutFive(db, s, r)[Key(s, Compilers) := Text(r.compilers)]
  }

  lemma PutFiveKeepsCompilers(db: Database, records: map<string, Record>, s: string, r: Record)
    requires Represents(db, records)
    ensures var d := PutFive(db, s, r);
            && (Key(s, Compilers) in d <==> s in records)
            && (s in records ==> d[Key(s, Compilers)] == Text(records[s].compilers))
  {
    SixKeysDiffer(s);
    AllOrNone(db, records, s, Compilers);
    assert s in records ==> db[Key(s, Compilers)] == Encode(s, records[s], Compilers);
  }

  lemma SixPuts(db: Database, a: string, b: string, c: string, d: string, e: string, f: string,
                u: Value, v: Value, w: Value, x: Value, y: Value, z: Value)
    requires a != b && a != c && a != d && a != e && a != f && b != c && b != d && b != e && b != f
    requires c != d && c != e && c != f && d != e && d != f && e != f
    ensures var m := db[a := u][b := v][c := w][d := x][e := y][f := z];
            && a in m && m[a] == u && b in m && m[b] == v && c in m && m[c] == w
            && d in m && m[d] == x && e in m && m[e] == y && f in m && m[f] == z
  {
  }

  lemma PutSixWrites(db: Database, s: string, r: Record)
    ensures forall f :: Key(s, f) in PutSix(db, s, r) && PutSix(db, s, r)[Key(s, f)] == Encode(s, r, f)
  {
    SixKeysDiffer(s);
    SixPuts(db, Key(s, Name), Key(s, Age), Key(s, Compression), Key(s, Load), Key(s, MaxJobs), Key(s, Compilers),
            Text(s), Number(r.age), Flag(r.compression), Number(r.load), Number(r.maxJobs), Text(r.compilers));
  }

  lemma PutSixKeeps(db: Database, s: string, r: Record)
    ensures forall k :: k in db && (forall f :: k != Key(s, f)) ==> k in PutSix(db, s, r) && PutSix(db, s, r)[k] == db[k]
    ensures forall k :: k in PutSix(db, s, r) ==> k in db || exists f :: k == Key(s, f)
  {
    hide Key;
    forall k | k in db && forall f :: k != Key(s, f) ensures k in PutSix(db, s, r) && PutSix(db, s, r)[k] == db[k] {
      OtherKey(s, k);
    }
  }

  lemma OtherKey(s: string, k: string)
    ensures (forall f :: k != Key(s, f)) <==>
            && k != Key(s, Name) && k != Key(s, Age) && k != Key(s, Compression)
            && k != Key(s, Compilers) && k != Key(s, Load) && k != Key(s, MaxJobs)
  {
  }

  lemma PutSixIsUpdate(db: Database, records: map<string, Record>, s: string, r: Record)
    requires Represents(db, records)
    ensures Represents(PutSix(db, s, r), records[s := r])
  {
    PutSixWrites(db, s, r);
    PutSixKeeps(db, s, r);
    PutRecord(db, records, PutSix(db, s, r), s, r);
  }

  function DropSix(db: Database, s: string): Database {
    db - {Key(s, Name)} - {Key(s, Age)} - {Key(s, Compression)} - {Key(s, Compilers)} - {Key(s, Load)} - {Key(s, MaxJobs)}
  }

  lemma DropSixIsRemoval(db: Database, records: map<string, Record>, s: string)
    requires Represents(db, records)
    ensures Represents(DropSix(db, s), records - {s})
  {
    hide Key, Represents;
    var d := DropSix(db, s);
    forall k ensures k in d <==> k in db && forall f :: k != Key(s, f) {
      OtherKey(s, k);
    }
    DropRecord(db, records, d, s);
  }

  // --- The queries ------------------------------------------------------------

  /** The servers that have to be asked: all that are known or configured, except
      those whose record may be used as it is. */
  ghost predicate ToAsk(records: map<string, Record>, changed: bool, w: World, s: string) {
    (s in records || s in w.config) && !Fresh(records, changed, w, s)
  }

  /** The state of things when the servers in q have been asked. */
  ghost predicate Asked(known: map<string, Record>, changed: bool, w: World, compiler: string, q: set<string>,
                        records: map<string, Record>, available: seq<Server>) {
    && (forall s :: s in records <==> if s in q then w.query(s).Ok? else s in known)
    && (forall s :: s in records ==>
          records[s] == if s in q then Updated(Previous(known, s), compiler, w.query(s).answer, w.updated(s)) else known[s])
    && NoRepeats(available)
    && (forall s :: s in NamesOf(available) <==> if s in q then w.query(s).Ok? else Fresh(known, changed, w, s))
    && (forall k | 0 <= k < |available| ::
          available[k].currentLoad == LoadOf(known, w, q, available[k].name))
  }

  function LoadOf(known: map<string, Record>, w: World, q: set<string>, s: string): nat {
    if s in q then (if w.query(s).Ok? then w.query(s).answer.currentLoad else 0)
    else if s in known then known[s].load else 0
  }

  /** The load a server is known with: the one in the database if its record was
      fresh, else the one it replied with. */
  function LoadShown(known: map<string, Record>, changed: bool, w: World, s: string): nat {
    if Fresh(known, changed, w, s) then known[s].load else if w.query(s).Ok? then w.query(s).answer.currentLoad else 0
  }

  lemma AskedOk(known: map<string, Record>, changed: bool, w: World, compiler: string, q: set<string>,
                records: map<string, Record>, available: seq<Server>, s: string, a: Answer)
    requires Asked(known, changed, w, compiler, q, records, available)
    requires s !in q && !Fresh(known, changed, w, s) && w.query(s) == Ok(a)
    ensures Asked(known, changed, w, compiler, q + {s},
                  records[s := Updated(Previous(records, s), compiler, a, w.updated(s))], available + [Server(a.currentLoad, s)])
  {
    AddName(available, Server(a.currentLoad, s));
    var more := available + [Server(a.currentLoad, s)];
    forall k | 0 <= k < |more| ensures more[k].currentLoad == LoadOf(known, w, q + {s}, more[k].name) {
      if k < |available| {
        assert available[k].name in NamesOf(available);
      }
    }
  }

  lemma AskedFailed(known: map<string, Record>, changed: bool, w: World, compiler: string, q: set<string>,
                    records: map<string, Record>, available: seq<Server>, s: string)
    requires Asked(known, changed, w, compiler, q, records, available)
    requires s !in q && !Fresh(known, changed, w, s) && !w.query(s).Ok?
    ensures Asked(known, changed, w, compiler, q + {s}, records - {s}, available)
  {
    forall k | 0 <= k < |available| ensures available[k].currentLoad == LoadOf(known, w, q + {s}, available[k].name) {
      assert available[k].name in NamesOf(available);
    }
  }

  lemma NextName(l: seq<Server>, i: nat)
    requires NoRepeats(l) && i < |l|
    ensures l[i].name !in NamesOf(l[..i]) && NamesOf(l[..i + 1]) == NamesOf(l[..i]) + {l[i].name}
  {
    assert l[..i + 1] == l[..i] + [l[i]];
    AddName(l[..i], l[i]);
  }

  lemma NotFresh(records: map<string, Record>, changed: bool, w: World, vector: seq<Server>)
    requires forall s :: s in NamesOf(vector) <==> ToAsk(records, changed, w, s)
    ensures forall k | 0 <= k < |vector| :: !Fresh(records, changed, w, vector[k].name)
  {
    forall k | 0 <= k < |vector| ensures !Fresh(records, changed, w, vector[k].name) {
      assert vector[k].name in NamesOf(vector);
    }
  }

  lemma AskedAll(known: map<string, Record>, changed: bool, w: World, compiler: string, q: set<string>,
                 records: map<string, Record>, available: seq<Server>)
    requires Asked(known, changed, w, compiler, q, records, available)
    requires forall s :: s in q <==> ToAsk(known, changed, w, s)
    ensures forall s :: s in records <==> Survives(known, changed, w, s)
    ensures forall s :: s in records ==> records[s] == After(known, changed, w, compiler, s)
    ensures forall s :: s in NamesOf(available) <==> s in records
    ensures NoRepeats(available)
    ensures forall x | x in available :: x.currentLoad == LoadShown(known, changed, w, x.name)
  {
    forall x | x in available ensures x.currentLoad == LoadShown(known, changed, w, x.name) {
      var k :| 0 <= k < |available| && available[k] == x;
      assert x.name in NamesOf(available);
      assert x.name in q <==> ToAsk(known, changed, w, x.name);
    }
    forall s ensures s in records <==> Survives(known, changed, w, s) {
      assert s in q <==> ToAsk(known, changed, w, s);
    }
    forall s ensures s in NamesOf(available) <==> s in records {
      assert s in q <==> ToAsk(known, changed, w, s);
    }
    forall s | s in records ensures records[s] == After(known, changed, w, compiler, s) {
      assert s in q <==> ToAsk(known, changed, w, s);
    }
  }

  lemma NothingAsked(known: map<string, Record>, changed: bool, w: World, compiler: string,
                     existing: seq<Server>, expired: seq<Server>, available: seq<Server>)
    requires Classified(known, changed, w, known.Keys, existing, expired, available)
    ensures NoRepeats(existing) && NoRepeats(expired)
    ensures Asked(known, changed, w, compiler, {}, known, available)
  {
  }

  lemma AskedExactly(records: map<string, Record>, changed: bool, w: World, existing: seq<Server>, expired: seq<Server>,
                     available: seq<Server>, vector: seq<Server>)
    requires Classified(records, changed, w, records.Keys, existing, expired, available)
    requires forall s :: s in NamesOf(vector) <==>
                           s in NamesOf(if changed then existing else expired) || (s in w.config && s !in NamesOf(available))
    ensures forall s :: s in NamesOf(vector) <==> ToAsk(records, changed, w, s)
  {
  }

  /** Whether a server of that name is in the vector. */
  method Registered(l: seq<Server>, name: string) returns (found: bool)
    ensures found <==> name in NamesOf(l)
  {
    found := false;
    for k := 0 to |l|
      invariant found <==> exists i :: 0 <= i < k && l[i].name == name
    {
      if l[k].name == name {
        found := true;
      }
    }
  }

  /** Adds the configured servers that are in neither vector, each once. */
  method AddConfigured(config: seq<string>, vector: seq<Server>, available: seq<Server>) returns (more: seq<Server>)
    requires NoRepeats(vector)
    ensures NoRepeats(more)
    ensures forall s :: s in NamesOf(more) <==> s in NamesOf(vector) || (s in config && s !in NamesOf(available))
  {
    more := vector;
    for k := 0 to |config|
      invariant NoRepeats(more)
      invariant forall s :: s in NamesOf(more) <==> s in NamesOf(vector) || (s in config[..k] && s !in NamesOf(available))
    {
      var known := Registered(more, config[k]);
      var usable := Registered(available, config[k]);
      assert config[..k + 1] == config[..k] + [config[k]];
      if !known && !usable {
        AddName(more, Server(0, config[k]));
        more := more + [Server(0, config[k])];
      }
    }
    assert config[..|config|] == config;
  }

  /** Where the ordered set of servers puts one: behind those with no more load. */
  function Place(l: seq<Server>, x: Server): seq<Server> {
    if l == [] || l[|l| - 1].currentLoad <= x.currentLoad then l + [x]
    else Place(l[..|l| - 1], x) + [l[|l| - 1]]
  }

  ghost predicate ByLoad(l: seq<Server>) {
    forall i, j | 0 <= i < j < |l| :: l[i].currentLoad <= l[j].currentLoad
  }

  lemma {:induction false} PlaceMembers(l: seq<Server>, x: Server)
    ensures forall y :: y in Place(l, x) <==> y in l || y == x
  {
    if l == [] || l[|l| - 1].currentLoad <= x.currentLoad {
    } else {
      PlaceMembers(l[..|l| - 1], x);
      assert l == l[..|l| - 1] + [l[|l| - 1]];
    }
  }

  lemma {:induction false} PlaceKeepsOrder(l: seq<Server>, x: Server)
    requires ByLoad(l)
    ensures ByLoad(Place(l, x))
  {
    if l == [] || l[|l| - 1].currentLoad <= x.currentLoad {
    } else {
      var rest, last := l[..|l| - 1], l[|l| - 1];
      PlaceKeepsOrder(rest, x);
      PlaceMembers(rest, x);
      forall y | y in Place(rest, x) ensures y.currentLoad <= last.currentLoad {}
    }
  }

  /** Putting a server with a new name in its place repeats no name. */
  lemma {:induction false} PlaceNames(l: seq<Server>, x: Server)
    requires NoRepeats(l) && x.name !in NamesOf(l)
    ensures NoRepeats(Place(l, x)) && NamesOf(Place(l, x)) == NamesOf(l) + {x.name}
  {
    if l == [] || l[|l| - 1].currentLoad <= x.currentLoad {
      AddName(l, x);
    } else {
      var rest, last := l[..|l| - 1], l[|l| - 1];
      assert l == rest + [last];
      assert last.name !in NamesOf(rest);
      AddName(rest, last);
      PlaceNames(rest, x);
      AddName(Place(rest, x), last);
    }
  }

  function OfLoad(l: seq<Server>, load: nat): seq<Server> {
    if l == [] then []
    else OfLoad(l[..|l| - 1], load) + if l[|l| - 1].currentLoad == load then [l[|l| - 1]] else []
  }

  lemma OfLoadSnoc(l: seq<Server>, x: Server, load: nat)
    ensures OfLoad(l + [x], load) == OfLoad(l, load) + if x.currentLoad == load then [x] else []
  {
    assert (l + [x])[..|l|] == l;
  }

  /** Among servers with the same load, the one inserted last comes last. */
  lemma {:induction false} PlaceIsStable(l: seq<Server>, x: Server, load: nat)
    ensures OfLoad(Place(l, x), load) == OfLoad(l, load) + if x.currentLoad == load then [x] else []
  {
    if l == [] || l[|l| - 1].currentLoad <= x.currentLoad {
      OfLoadSnoc(l, x, load);
    } else {
      var rest, last := l[..|l| - 1], l[|l| - 1];
      PlaceIsStable(rest, x, load);
      OfLoadSnoc(Place(rest, x), last, load);
    }
  }

  /** The insertions into the set of servers that is ordered by load. */
  method InsertAll(available: seq<Server>) returns (servers: seq<Server>)
    requires NoRepeats(available)
    ensures NoRepeats(servers) && ByLoad(servers) && NamesOf(servers) == NamesOf(available)
    ensures forall x :: x in servers <==> x in available
    ensures forall load :: OfLoad(servers, load) == OfLoad(available, load)
  {
    servers := [];
    for k := 0 to |available|
      invariant NoRepeats(servers) && ByLoad(servers) && NamesOf(servers) == NamesOf(available[..k])
      invariant forall x :: x in servers <==> x in available[..k]
      invariant forall load :: OfLoad(servers, load) == OfLoad(available[..k], load)
    {
      assert available[..k + 1] == available[..k] + [available[k]];
      AddName(available[..k], available[k]);
      assert available[k].name !in NamesOf(available[..k]);
      PlaceNames(servers, available[k]);
      PlaceKeepsOrder(servers, available[k]);
      PlaceMembers(servers, available[k]);
      forall load ensures OfLoad(Place(servers, available[k]), load) == OfLoad(available[..k + 1], load) {
        PlaceIsStable(servers, available[k], load);
        OfLoadSnoc(available[..k], available[k], load);
      }
      servers := Place(servers, available[k]);
    }
    assert available[..|available|] == available;
  }

  predicate Changed(misc: map<string, string>, w: World) {
    (if "compressionType" in misc then misc["compressionType"] else "") != w.compression
  }

  /** The server was queried with success in this call, or the compression type is
      unchanged and its last successful query is truly at most ten seconds old. */
  ghost predicate RecentlyQueried(known: map<string, Record>, before: map<string, nat>, changed: bool, w: World, s: string,
                                  queriedAt: map<string, nat>) {
    && s in queriedAt
    && if Fresh(known, changed, w, s) then
         s in before && queriedAt[s] == before[s] && w.scanned(s) - queriedAt[s] <= 10 * SECOND
       else
         w.query(s).Ok? && queriedAt[s] == w.updated(s)
  }

  /** A server that was not asked has a record that is truly recent, because the
      stored age is never later than the query. */
  lemma AllRecent(known: map<string, Record>, before: map<string, nat>, changed: bool, w: World, q: set<string>,
                  records: map<string, Record>, queriedAt: map<string, nat>)
    requires forall s :: s in known ==> s in before && known[s].age == before[s] / SECOND
    requires forall s :: s in q <==> ToAsk(known, changed, w, s)
    requires forall s :: s in records <==> Survives(known, changed, w, s)
    requires forall s :: s in records ==>
               s in queriedAt && (if s in q then queriedAt[s] == w.updated(s) else s in before && queriedAt[s] == before[s])
    ensures forall s :: s in records ==> RecentlyQueried(known, before, changed, w, s, queriedAt)
  {
    forall s | s in records ensures RecentlyQueried(known, before, changed, w, s, queriedAt) {
      assert Survives(known, changed, w, s);
      assert s in q <==> ToAsk(known, changed, w, s);
      if s !in q {
        assert known[s].age * SECOND <= before[s];
      }
    }
  }

  /** The fields of an updated record, spelled out. */
  lemma UpdatedFields(known: Option<string>, compiler: string, a: Answer, now: nat)
    ensures var r := Updated(known, compiler, a, now);
            && r.age == now / 1_000_000_000 && r.compression == a.compressionSupported && r.maxJobs == a.maxJobs
            && r.load == (if a.currentLoad > 100 then 100 else a.currentLoad)
            && r.compilers == NewCompilers(known, compiler, a.compilerSupported)
            && (known.None? ==> r.compilers == if a.compilerSupported then compiler + "/" else "")
  {
    CompilersByName("", "", compiler, a.compilerSupported);
  }

  predicate Holds(db: Database, key: string, value: Value) {
    key in db && db[key] == value
  }

  /** The keys and values of a record, spelled out. */
  lemma RecordKeys(db: Database, records: map<string, Record>, s: string)
    requires Represents(db, records) && s in records
    ensures Holds(db, s + "_name", Text(s)) && Holds(db, s + "_age", Number(records[s].age))
    ensures Holds(db, s + "_compressionTypeSupported", Flag(records[s].compression))
    ensures Holds(db, s + "_supportedCompilers", Text(records[s].compilers))
    ensures Holds(db, s + "_currentLoad", Number(records[s].load)) && Holds(db, s + "_maxJobs", Number(records[s].maxJobs))
  {
    assert forall f :: Key(s, f) in db && db[Key(s, f)] == Encode(s, records[s], f);
    assert Encode(s, records[s], Name) == db[Key(s, Name)] && Encode(s, records[s], Age) == db[Key(s, Age)];
    assert Encode(s, records[s], Compression) == db[Key(s, Compression)] && Encode(s, records[s], Compilers) == db[Key(s, Compilers)];
    assert Encode(s, records[s], Load) == db[Key(s, Load)] && Encode(s, records[s], MaxJobs) == db[Key(s, MaxJobs)];
  }

  lemma UpdatedKeys(db: Database, records: map<string, Record>, s: string, known: Option<string>, compiler: string,
                    a: Answer, now: nat)
    requires Represents(db, records) && s in records && records[s] == Updated(known, compiler, a, now)
    ensures Holds(db, s + "_name", Text(s)) && Holds(db, s + "_age", Number(now / 1_000_000_000))
    ensures Holds(db, s + "_compressionTypeSupported", Flag(a.compressionSupported))
    ensures Holds(db, s + "_currentLoad", Number(if a.currentLoad > 100 then 100 else a.currentLoad))
    ensures Holds(db, s + "_maxJobs", Number(a.maxJobs))
    ensures Holds(db, s + "_supportedCompilers", Text(NewCompilers(known, compiler, a.compilerSupported)))
    ensures known.None? ==> Holds(db, s + "_supportedCompilers", Text(if a.compilerSupported then compiler + "/" else ""))
  {
    RecordKeys(db, records, s);
    UpdatedFields(known, compiler, a, now);
  }

  lemma DroppedKeys(db: Database, records: map<string, Record>, s: string)
    requires Represents(db, records) && s !in records
    ensures s + "_name" !in db && s + "_age" !in db && s + "_compressionTypeSupported" !in db
    ensures s + "_supportedCompilers" !in db && s + "_currentLoad" !in db && s + "_maxJobs" !in db
  {
    hide Represents;
    AllOrNone(db, records, s, Name);
    AllOrNone(db, records, s, Age);
    AllOrNone(db, records, s, Compression);
    AllOrNone(db, records, s, Compilers);
    AllOrNone(db, records, s, Load);
    AllOrNone(db, records, s, MaxJobs);
  }

  // --- What a start-up comes to, spelled out --------------------------------------

  /** The compression type that the store remembers. */
  function StoredType(misc: map<string, string>): string {
    if "compressionType" in misc then misc["compressionType"] else ""
  }

  /** The record was written for the present compression type and is at most ten
      seconds old by its stored age. */
  predicate MayStay(known: map<string, Record>, stored: string, w: World, s: string) {
    stored == w.compression && s in known && w.scanned(s) - known[s].age * 1_000_000_000 <= 10_000_000_000
  }

  /** The record is the one of an answer given in this call; `known` is the server's
      list of compilers before it. */
  predicate IsAnswer(r: Record, known: Option<string>, compiler: string, a: Answer, now: nat) {
    && r.age == now / 1_000_000_000 && r.compression == a.compressionSupported && r.maxJobs == a.maxJobs
    && r.load == (if a.currentLoad > 100 then 100 else a.currentLoad)
    && r.compilers == NewCompilers(known, compiler, a.compilerSupported)
  }

  /** What is stored and known after a start-up, from what was stored before it. */
  ghost predicate StartedUp(known: map<string, Record>, before: map<string, nat>, stored: string, w: World,
                            compiler: string, records: map<string, Record>, queriedAt: map<string, nat>, servers: seq<Server>) {
    && (forall s :: s in records <==>
          MayStay(known, stored, w, s) || ((s in known || s in w.config) && w.query(s).Ok?))
    && (forall s :: s in records && MayStay(known, stored, w, s) ==>
          && records[s] == known[s] && s in before && s in queriedAt && queriedAt[s] == before[s]
          && w.scanned(s) - queriedAt[s] <= 10_000_000_000)
    && (forall s :: s in records && !MayStay(known, stored, w, s) ==>
          && IsAnswer(records[s], if s in known then Some(known[s].compilers) else None, compiler, w.query(s).answer, w.updated(s))
          && s in queriedAt && queriedAt[s] == w.updated(s))
    && (forall s :: s in NamesOf(servers) <==> s in records)
    && (forall x | x in servers && x.name in records ::
          if MayStay(known, stored, w, x.name) then x.currentLoad == known[x.name].load
          else w.query(x.name).Ok? && x.currentLoad == w.query(x.name).answer.currentLoad)
  }

  lemma StartUpSpelledOut(known: map<string, Record>, before: map<string, nat>, misc: map<string, string>, w: World,
                          compiler: string, records: map<string, Record>, queriedAt: map<string, nat>, servers: seq<Server>)
    requires forall s :: s in records <==> Survives(known, Changed(misc, w), w, s)
    requires forall s :: s in records ==> records[s] == After(known, Changed(misc, w), w, compiler, s)
    requires forall s :: s in records ==> RecentlyQueried(known, before, Changed(misc, w), w, s, queriedAt)
    requires forall s :: s in NamesOf(servers) <==> s in records
    requires forall x | x in servers :: x.currentLoad == LoadShown(known, Changed(misc, w), w, x.name)
    ensures StartedUp(known, before, StoredType(misc), w, compiler, records, queriedAt, servers)
  {
    var changed := Changed(misc, w);
    forall s ensures MayStay(known, StoredType(misc), w, s) <==> Fresh(known, changed, w, s) {}
    forall s | s in records && !MayStay(known, StoredType(misc), w, s)
      ensures IsAnswer(records[s], if s in known then Some(known[s].compilers) else None, compiler, w.query(s).answer, w.updated(s))
    {
      assert Survives(known, changed, w, s);
      UpdatedFields(Previous(known, s), compiler, w.query(s).answer, w.updated(s));
    }
    forall s | s in records ensures RecentlyQueried(known, before, changed, w, s, queriedAt) {}
    forall x | x in servers && x.name in records
      ensures if MayStay(known, StoredType(misc), w, x.name) then x.currentLoad == known[x.name].load
              else w.query(x.name).Ok? && x.currentLoad == w.query(x.name).answer.currentLoad
    {
      assert Survives(known, changed, w, x.name);
    }
  }

  class Client {
    const compilerName: string
    var misc: map<string, string>
    var db: Database
    var servers: seq<Server>
    ghost var records: map<string, Record>
    /** When each server was last queried with success, to the nanosecond. */
    ghost var queriedAt: map<string, nat>

    ghost predicate Valid()
      reads this
    {
      && Represents(db, records)
      && (forall s :: s in records ==> s in queriedAt && records[s].age == queriedAt[s] / SECOND)
    }

    /** A client opens the store that earlier processes left, or an empty one. */
    constructor (compiler: string, misc: map<string, string>, db: Database,
                 ghost records: map<string, Record>, ghost queriedAt: map<string, nat>)
      requires Represents(db, records)
      requires forall s :: s in records ==> s in queriedAt && records[s].age == queriedAt[s] / SECOND
      ensures Valid() && this.records == records && this.queriedAt == queriedAt && this.db == db
      ensures this.misc == misc && servers == [] && compilerName == compiler
    {
      compilerName, this.misc, this.db, servers := compiler, misc, db, [];
      this.records, this.queriedAt := records, queriedAt;
    }

    method UpdateServer(server: string, answer: Answer, now: nat)
      requires Valid()
      modifies this`db, this`records, this`queriedAt
      ensures Valid()
      ensures records == old(records)[server := Updated(Previous(old(records), server), compilerName, answer, now)]
      ensures queriedAt == old(queriedAt)[server := now]
      ensures Holds(db, server + "_name", Text(server)) && Holds(db, server + "_age", Number(now / 1_000_000_000))
      ensures Holds(db, server + "_compressionTypeSupported", Flag(answer.compressionSupported))
      ensures Holds(db, server + "_currentLoad", Number(if answer.currentLoad > 100 then 100 else answer.currentLoad))
      ensures Holds(db, server + "_maxJobs", Number(answer.maxJobs))
      ensures server in old(records) ==>
                Holds(db, server + "_supportedCompilers",
                      Text(NewCompilers(Some(old(records)[server].compilers), compilerName, answer.compilerSupported)))
      ensures server !in old(records) ==>
                Holds(db, server + "_supportedCompilers", Text(if answer.compilerSupported then compilerName + "/" else ""))
    {
      hide NewCompilers, Represents, Key, Holds;
      ghost var r := Updated(Previous(records, server), compilerName, answer, now);
      var mtime := now / SECOND;
      var wtxn := db;
      wtxn := wtxn[Key(server, Name) := Text(server)];
      wtxn := wtxn[Key(server, Age) := Number(mtime)];
      wtxn := wtxn[Key(server, Compression) := Flag(answer.compressionSupported)];
      wtxn := wtxn[Key(server, Load) := Number(if answer.currentLoad < 100 then answer.currentLoad else 100)];
      wtxn := wtxn[Key(server, MaxJobs) := Number(answer.maxJobs)];
      assert wtxn == PutFive(db, server, r);
      PutFiveKeepsCompilers(db, records, server, r);
      var known := if Key(server, Compilers) in wtxn then Some(wtxn[Key(server, Compilers)].text) else None;
      var newCompilers := UpdateCompilers(known, compilerName, answer.compilerSupported);
      wtxn := wtxn[Key(server, Compilers) := Text(newCompilers)];
      assert wtxn == PutSix(db, server, r);
      PutSixIsUpdate(db, records, server, r);
      UpdatedKeys(wtxn, records[server := r], server, Previous(records, server), compilerName, answer, now);
      db, records, queriedAt := wtxn, records[server := r], queriedAt[server := now];
    }

    method RemoveServer(server: string)
      requires Valid()
      modifies this`db, this`records
      ensures Valid() && records == old(records) - {server}
      ensures server + "_name" !in db && server + "_age" !in db && server + "_compressionTypeSupported" !in db
      ensures server + "_supportedCompilers" !in db && server + "_currentLoad" !in db && server + "_maxJobs" !in db
    {
      DropSixIsRemoval(db, records, server);
      DroppedKeys(DropSix(db, server), records - {server}, server);
      hide Key, Represents;
      var wtxn := db;
      wtxn := wtxn - {Key(server, Name)};
      wtxn := wtxn - {Key(server, Age)};
      wtxn := wtxn - {Key(server, Compression)};
      wtxn := wtxn - {Key(server, Compilers)};
      wtxn := wtxn - {Key(server, Load)};
      wtxn := wtxn - {Key(server, MaxJobs)};
      db, records := wtxn, records - {server};
    }

    /** The cursor over all keys, in whatever order. */
    method Scan(w: World, changed: bool) returns (existing: seq<Server>, expired: seq<Server>, available: seq<Server>)
      requires Valid()
      ensures Classified(records, changed, w, records.Keys, existing, expired, available)
    {
      existing, expired, available := [], [], [];
      var rest := db.Keys;
      assert Scanned(records, rest) == {};
      while rest != {}
        invariant rest <= db.Keys
        invariant Classified(records, changed, w, Scanned(records, rest), existing, expired, available)
        decreases rest
      {
        var key :| key in rest;
        if EndsWith(key, Suffix(Name)) {
          ghost var s := ScannedName(db, records, rest, key);
          var name := db[key].text;
          var server := Server(db[Key(name, Load)].n, name);
          Classify(records, changed, w, Scanned(records, rest), existing, expired, available, server);
          if changed {
            existing := existing + [server];
          } else {
            var age := db[Key(name, Age)].n * SECOND;
            if w.scanned(name) - age > 10 * SECOND {
              expired := expired + [server];
            } else {
              available := available + [server];
            }
          }
        } else {
          ScannedOther(db, records, rest, key);
        }
        rest := rest - {key};
      }
      assert Scanned(records, {}) == records.Keys;
    }

    /** When the servers that are known now were last queried: those in q in this
        call, the others when they were before. */
    ghost predicate Times(w: World, q: set<string>, before: map<string, nat>)
      reads this
    {
      forall s :: s in records ==>
        s in queriedAt && (if s in q then queriedAt[s] == w.updated(s) else s in before && queriedAt[s] == before[s])
    }

    /** Asks one server; if it does not answer it is purged. */
    method QueryOne(w: World, changed: bool, ghost known: map<string, Record>, ghost before: map<string, nat>, ghost q: set<string>,
                    asked: Server, usable: seq<Server>)
      returns (available: seq<Server>)
      requires Valid() && Asked(known, changed, w, compilerName, q, records, usable) && Times(w, q, before)
      requires asked.name !in q && !Fresh(known, changed, w, asked.name)
      modifies this`db, this`records, this`queriedAt
      ensures Valid() && Times(w, q + {asked.name}, before)
      ensures Asked(known, changed, w, compilerName, q + {asked.name}, records, available)
    {
      available := usable;
      var server := asked;
      match w.query(server.name) {
        case Ok(answer) =>
          AskedOk(known, changed, w, compilerName, q, records, available, server.name, answer);
          server := server.(currentLoad := answer.currentLoad);
          UpdateServer(server.name, answer, w.updated(server.name));
          available := available + [server];
        case Unavailable =>
          AskedFailed(known, changed, w, compilerName, q, records, available, server.name);
          RemoveServer(server.name);
        case OtherError =>
          AskedFailed(known, changed, w, compilerName, q, records, available, server.name);
          RemoveServer(server.name);
      }
    }

    /** Asks each server of the vector. */
    method QueryAll(w: World, changed: bool, vector: seq<Server>, usable: seq<Server>) returns (available: seq<Server>)
      requires Valid() && NoRepeats(vector)
      requires Asked(records, changed, w, compilerName, {}, records, usable)
      requires forall k | 0 <= k < |vector| :: !Fresh(records, changed, w, vector[k].name)
      modifies this`db, this`records, this`queriedAt
      ensures Valid() && Asked(old(records), changed, w, compilerName, NamesOf(vector), records, available)
      ensures Times(w, NamesOf(vector), old(queriedAt))
    {
      available := usable;
      ghost var known, before := records, queriedAt;
      var i := 0;
      while i < |vector|
        invariant 0 <= i <= |vector| && Valid() && Times(w, NamesOf(vector[..i]), before)
        invariant Asked(known, changed, w, compilerName, NamesOf(vector[..i]), records, available)
        decreases |vector| - i
      {
        NextName(vector, i);
        available := QueryOne(w, changed, known, before, NamesOf(vector[..i]), vector[i], available);
        i := i + 1;
      }
      assert vector[..i] == vector;
    }

    /** What a call makes of the records that were known before it. */
    ghost predicate UpToDate(known: map<string, Record>, before: map<string, nat>, changed: bool, w: World)
      reads this
    {
      && (forall s :: s in records <==> Survives(known, changed, w, s))
      && (forall s :: s in records ==> records[s] == After(known, changed, w, compilerName, s))
      && (forall s :: s in records ==> RecentlyQueried(known, before, changed, w, s, queriedAt))
    }

    /** Asks the servers that have to be asked. */
    method Refresh(w: World, changed: bool, vector: seq<Server>, usable: seq<Server>) returns (available: seq<Server>)
      requires Valid() && NoRepeats(vector) && Asked(records, changed, w, compilerName, {}, records, usable)
      requires forall s :: s in NamesOf(vector) <==> ToAsk(records, changed, w, s)
      modifies this`db, this`records, this`queriedAt
      ensures Valid() && UpToDate(old(records), old(queriedAt), changed, w)
      ensures NoRepeats(available) && forall s :: s in NamesOf(available) <==> s in records
      ensures forall x | x in available :: x.currentLoad == LoadShown(old(records), changed, w, x.name)
    {
      available := usable;
      NotFresh(records, changed, w, vector);
      if vector != [] {
        available := QueryAll(w, changed, vector, available);
      }
      AskedAll(old(records), changed, w, compilerName, NamesOf(vector), records, available);
      AllRecent(old(records), old(queriedAt), changed, w, NamesOf(vector), records, queriedAt);
    }

    /** Brings the cache up to date and fills in the servers the client knows. */
    method Init(w: World)
      requires Valid() && servers == []
      modifies this
      ensures Valid() && UpToDate(old(records), old(queriedAt), Changed(old(misc), w), w)
      ensures misc == if Changed(old(misc), w) then old(misc)["compressionType" := w.compression] else old(misc)
      ensures StoredType(misc) == w.compression
      ensures forall k | k != "compressionType" :: (k in misc <==> k in old(misc)) && (k in misc ==> misc[k] == old(misc)[k])
      ensures StartedUp(old(records), old(queriedAt), StoredType(old(misc)), w, compilerName, records, queriedAt, servers)
      ensures NoRepeats(servers) && ByLoad(servers) && (forall s :: s in NamesOf(servers) <==> s in records)
      ensures forall x | x in servers :: x.currentLoad == LoadShown(old(records), Changed(old(misc), w), w, x.name)
    {
      hide Classified, Asked, ByLoad, NoRepeats, NamesOf, Represents, Fresh, ToAsk, StartedUp, Survives, After, LoadShown,
        RecentlyQueried;
      var previous := if "compressionType" in misc then misc["compressionType"] else "";
      var changed := previous != w.compression;
      var existing, expired, available := Scan(w, changed);
      if changed {
        misc := misc["compressionType" := w.compression];
      }
      NothingAsked(records, changed, w, compilerName, existing, expired, available);
      var vector := if changed then existing else expired;
      vector := AddConfigured(w.config, vector, available);
      AskedExactly(records, changed, w, existing, expired, available, vector);
      available := Refresh(w, changed, vector, available);
      servers := InsertAll(available);
      StartUpSpelledOut(old(records), old(queriedAt), old(misc), w, compilerName, records, queriedAt, servers);
    }
  }

  /** A process on the store that an earlier one left: the new client knows exactly
      the servers in it, and leaves a store that the next process can open. */
  method StartUp(compiler: string, misc: map<string, string>, db: Database,
                 ghost records: map<string, Record>, ghost queriedAt: map<string, nat>, w: World)
    returns (client: Client)
    requires Represents(db, records)
    requires forall s :: s in records ==> s in queriedAt && records[s].age == queriedAt[s] / SECOND
    ensures fresh(client) && client.Valid() && client.UpToDate(records, queriedAt, Changed(misc, w), w)
    ensures StoredType(client.misc) == w.compression
    ensures StartedUp(records, queriedAt, StoredType(misc), w, compiler, client.records, client.queriedAt, client.servers)
    ensures NoRepeats(client.servers) && ByLoad(client.servers)
    ensures forall s :: s in NamesOf(client.servers) <==> s in client.records
  {
    client := new Client(compiler, misc, db, records, queriedAt);
    client.Init(w);
  }
}
