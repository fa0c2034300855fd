/** The ordered list of pending reservations that the server keeps in a multiset
    ordered by time stamp, and the operations that the server performs on it. */
module Reservations {
  import opened Totals

  type Uuid = string

  datatype Entry = Entry(uuid: Uuid, stamp: int)

  ghost predicate Sorted(es: seq<Entry>) {
    forall i, j | 0 <= i < j < |es| :: es[i].stamp <= es[j].stamp
  }

  function Carries(u: Uuid): Entry -> nat {
    (e: Entry) => if e.uuid == u then 1 else 0
  }

  /** How many entries carry u. */
  function Pending(es: seq<Entry>, u: Uuid): nat {
    Sum(es, Carries(u))
  }

  function Uuids(es: seq<Entry>): (us: seq<Uuid>)
    ensures |us| == |es|
  {
    if es == [] then [] else [es[0].uuid] + Uuids(es[1..])
  }

  function Is(u: Uuid): Uuid -> nat {
    (v: Uuid) => if v == u then 1 else 0
  }

  function Occurs(us: seq<Uuid>, u: Uuid): nat {
    Sum(us, Is(u))
  }

  lemma {:induction false} UuidsOccur(es: seq<Entry>, u: Uuid)
    ensures Occurs(Uuids(es), u) == Pending(es, u)
  {
    if es == [] {
    } else {
      UuidsOccur(es[1..], u);
      assert Uuids(es)[1..] == Uuids(es[1..]);
    }
  }

  /** Where an insertion hinted at the end puts an entry: behind everything that
      is not later, found by walking back from the end. */
  function UpperBound(es: seq<Entry>, t: int): (k: nat)
    ensures k <= |es|
    ensures k > 0 ==> es[k - 1].stamp <= t
    ensures forall i | k <= i < |es| :: es[i].stamp > t
  {
    if es == [] || es[|es| - 1].stamp <= t then |es| else UpperBound(es[..|es| - 1], t)
  }

  function Insert(es: seq<Entry>, e: Entry): seq<Entry> {
    var k := UpperBound(es, e.stamp);
    es[..k] + [e] + es[k..]
  }

  /** The first entry that is not earlier than t. */
  function LowerBound(es: seq<Entry>, t: int): (k: nat)
    ensures k <= |es|
    ensures forall i | 0 <= i < k :: es[i].stamp < t
    ensures k < |es| ==> es[k].stamp >= t
  {
    if es == [] || es[0].stamp >= t then 0 else 1 + LowerBound(es[1..], t)
  }

  /** All entries except those that carry u. */
  function WithoutUuid(es: seq<Entry>, u: Uuid): (r: seq<Entry>) {
    if es == [] then [] else (if es[0].uuid == u then [] else [es[0]]) + WithoutUuid(es[1..], u)
  }

  /** All entries that are not earlier than t. */
  function NotBefore(es: seq<Entry>, t: int): seq<Entry> {
    if es == [] then [] else (if es[0].stamp < t then [] else [es[0]]) + NotBefore(es[1..], t)
  }

  /** Insertion keeps the order whatever the clock says. */
  lemma InsertSorted(es: seq<Entry>, e: Entry)
    requires Sorted(es)
    ensures Sorted(Insert(es, e))
  {
  }

  /** Insertion adds exactly one entry. */
  lemma InsertContents(es: seq<Entry>, e: Entry, u: Uuid)
    ensures |Insert(es, e)| == |es| + 1 && multiset(Insert(es, e)) == multiset(es) + multiset{e}
    ensures Pending(Insert(es, e), u) == Pending(es, u) + Carries(u)(e)
  {
    var k := UpperBound(es, e.stamp);
    assert es == es[..k] + es[k..];
    SumAppend(es[..k], es[k..], Carries(u));
    SumSnoc(es[..k], e, Carries(u));
    SumAppend(es[..k] + [e], es[k..], Carries(u));
  }

  /** Erasing from the beginning to the lower bound leaves exactly the entries that
      are not earlier than t. */
  lemma {:induction false} SuffixIsFilter(es: seq<Entry>, t: int)
    requires Sorted(es)
    ensures es[LowerBound(es, t)..] == NotBefore(es, t)
  {
    if es == [] {
    } else if es[0].stamp < t {
      SuffixIsFilter(es[1..], t);
      assert es[LowerBound(es, t)..] == es[1..][LowerBound(es[1..], t)..];
    } else {
      NothingBefore(es, t);
    }
  }

  lemma PrefixIsBefore(es: seq<Entry>, t: int)
    ensures forall e | e in es[..LowerBound(es, t)] :: e.stamp < t
  {
  }

  lemma SuffixIsNotBefore(es: seq<Entry>, t: int)
    requires Sorted(es)
    ensures forall e | e in es[LowerBound(es, t)..] :: e.stamp >= t
    ensures Sorted(es[LowerBound(es, t)..])
  {
    var k := LowerBound(es, t);
    forall e | e in es[k..] ensures e.stamp >= t {
      var i :| k <= i < |es| && es[i] == e;
      assert es[k].stamp <= es[i].stamp;
    }
  }

  /** The prefix erase is a filter: what goes is earlier than t, what stays is not,
      nothing else is lost, and the fall in size counts what went. */
  lemma PrefixEraseIsFilter(es: seq<Entry>, t: int)
    requires Sorted(es)
    ensures es == es[..LowerBound(es, t)] + NotBefore(es, t)
    ensures |es| - |NotBefore(es, t)| == LowerBound(es, t)
    ensures forall e | e in es[..LowerBound(es, t)] :: e.stamp < t
    ensures forall e | e in NotBefore(es, t) :: e.stamp >= t
    ensures Sorted(NotBefore(es, t))
  {
    hide NotBefore, Sorted;
    SuffixIsFilter(es, t);
    PrefixIsBefore(es, t);
    SuffixIsNotBefore(es, t);
    assert es == es[..LowerBound(es, t)] + es[LowerBound(es, t)..];
  }

  lemma {:induction false} NothingBefore(es: seq<Entry>, t: int)
    requires forall i | 0 <= i < |es| :: es[i].stamp >= t
    ensures NotBefore(es, t) == es
  {
    if es == [] {
    } else {
      NothingBefore(es[1..], t);
    }
  }

  /** Erasing by UUID drops every match and nothing else. */
  lemma {:induction false} EraseUuid(es: seq<Entry>, u: Uuid, v: Uuid)
    ensures Pending(WithoutUuid(es, u), v) == if v == u then 0 else Pending(es, v)
    ensures |es| - |WithoutUuid(es, u)| == Pending(es, u)
  {
    if es == [] {
    } else {
      EraseUuid(es[1..], u, v);
      var tail := WithoutUuid(es[1..], u);
      if es[0].uuid == u {
        assert WithoutUuid(es, u) == tail;
      } else {
        assert WithoutUuid(es, u)[1..] == tail;
      }
    }
  }

  /** Every other reservation stays, stamp and all, as often as it was there. */
  lemma {:induction false} EraseUuidContents(es: seq<Entry>, u: Uuid, e: Entry)
    ensures multiset(WithoutUuid(es, u))[e] == if e.uuid == u then 0 else multiset(es)[e]
  {
    if es == [] {
    } else {
      EraseUuidContents(es[1..], u, e);
      assert es == [es[0]] + es[1..];
    }
  }

  lemma {:induction false} EraseUuidMembers(es: seq<Entry>, u: Uuid)
    ensures forall e :: e in WithoutUuid(es, u) <==> e in es && e.uuid != u
  {
    if es == [] {
    } else {
      EraseUuidMembers(es[1..], u);
      assert es == [es[0]] + es[1..];
    }
  }

  lemma {:induction false} EraseUuidSorted(es: seq<Entry>, u: Uuid)
    requires Sorted(es)
    ensures Sorted(WithoutUuid(es, u))
  {
    if es == [] {
    } else {
      EraseUuidSorted(es[1..], u);
      var tail := WithoutUuid(es[1..], u);
      forall e | e in tail ensures es[0].stamp <= e.stamp {
        EraseUuidMembers(es[1..], u);
      }
    }
  }

  lemma PendingIff(es: seq<Entry>, u: Uuid)
    ensures Pending(es, u) > 0 <==> exists i :: 0 <= i < |es| && es[i].uuid == u
  {
    SumPositive(es, Carries(u));
  }

  lemma {:induction false} NothingToErase(es: seq<Entry>, u: Uuid)
    requires Pending(es, u) == 0
    ensures WithoutUuid(es, u) == es
  {
    if es == [] {
    } else {
      NothingToErase(es[1..], u);
    }
  }

  lemma {:induction false} EraseAppend(a: seq<Entry>, b: seq<Entry>, u: Uuid)
    ensures WithoutUuid(a + b, u) == WithoutUuid(a, u) + WithoutUuid(b, u)
  {
    if a == [] {
      assert a + b == b;
    } else {
      EraseAppend(a[1..], b, u);
      assert (a + b)[0] == a[0] && (a + b)[1..] == a[1..] + b;
      Regroup(if a[0].uuid == u then [] else [a[0]], WithoutUuid(a[1..], u), WithoutUuid(b, u));
    }
  }

  /** Claiming what was just inserted under a new UUID restores the list. */
  lemma ClaimUndoesInsert(es: seq<Entry>, e: Entry)
    requires Pending(es, e.uuid) == 0
    ensures WithoutUuid(Insert(es, e), e.uuid) == es
  {
    var k := UpperBound(es, e.stamp);
    EraseBetween(es[..k], e, es[k..]);
    assert es == es[..k] + es[k..];
    NothingToErase(es, e.uuid);
  }

  lemma EraseBetween(a: seq<Entry>, e: Entry, b: seq<Entry>)
    ensures WithoutUuid(a + [e] + b, e.uuid) == WithoutUuid(a + b, e.uuid)
  {
    EraseAppend(a + [e], b, e.uuid);
    EraseAppend(a, [e], e.uuid);
    EraseAppend(a, b, e.uuid);
    assert WithoutUuid([e], e.uuid) == [];
  }
}
