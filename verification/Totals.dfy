/** Totals over sequences. */
module Totals {

  /** The sum of a weight over a sequence. */
  function Sum<T>(s: seq<T>, f: T -> nat): nat {
    if s == [] then 0 else f(s[0]) + Sum(s[1..], f)
  }

  lemma {:induction false} SumUpdate<T>(s: seq<T>, f: T -> nat, i: nat, x: T)
    requires i < |s|
    ensures Sum(s[i := x], f) == Sum(s, f) - f(s[i]) + f(x)
    ensures f(s[i]) <= Sum(s, f)
  {
    if i == 0 {
      assert s[0 := x][1..] == s[1..];
    } else {
      SumUpdate(s[1..], f, i - 1, x);
      assert s[i := x][1..] == s[1..][i - 1 := x];
    }
  }

  lemma {:induction false} SumAppend<T>(a: seq<T>, b: seq<T>, f: T -> nat)
    ensures Sum(a + b, f) == Sum(a, f) + Sum(b, f)
  {
    if a == [] {
      assert a + b == b;
    } else {
      SumAppend(a[1..], b, f);
      assert (a + b)[1..] == a[1..] + b;
    }
  }

  lemma SumSnoc<T>(a: seq<T>, x: T, f: T -> nat)
    ensures Sum(a + [x], f) == Sum(a, f) + f(x)
  {
    SumAppend(a, [x], f);
    assert [x][1..] == [];
  }

  lemma {:induction false} SumPair<T>(s: seq<T>, f: T -> nat, i: nat, j: nat)
    requires i < j < |s|
    ensures f(s[i]) + f(s[j]) <= Sum(s, f)
  {
    if i == 0 {
      SumUpdate(s[1..], f, j - 1, s[j]);
    } else {
      SumPair(s[1..], f, i - 1, j - 1);
    }
  }

  lemma {:induction false} SumBound<T>(s: seq<T>, f: T -> nat)
    requires forall i | 0 <= i < |s| :: f(s[i]) <= 1
    ensures Sum(s, f) <= |s|
  {
    if s == [] {
    } else {
      SumBound(s[1..], f);
    }
  }

  lemma {:induction false} SumZero<T>(s: seq<T>, f: T -> nat)
    requires forall i | 0 <= i < |s| :: f(s[i]) == 0
    ensures Sum(s, f) == 0
  {
    if s == [] {
    } else {
      SumZero(s[1..], f);
    }
  }

  lemma {:induction false} SumPositive<T>(s: seq<T>, f: T -> nat)
    ensures Sum(s, f) > 0 <==> exists i :: 0 <= i < |s| && f(s[i]) > 0
  {
    if s == [] {
    } else {
      SumPositive(s[1..], f);
      if i :| 0 <= i < |s| && f(s[i]) > 0 {
        assert i > 0 ==> s[1..][i - 1] == s[i];
      }
    }
  }

  lemma Regroup<T>(a: seq<T>, b: seq<T>, c: seq<T>)
    ensures a + b + c == a + (b + c)
  {
  }

  /** The parts that f makes of the elements, one after the other. */
  function Flat<T, U>(s: seq<T>, f: T -> seq<U>): seq<U> {
    if s == [] then [] else f(s[0]) + Flat(s[1..], f)
  }

  lemma FlatNothing<T, U>(f: T -> seq<U>)
    ensures Flat([], f) == []
  {
  }

  lemma FlatFirst<T, U>(s: seq<T>, f: T -> seq<U>)
    requires s != []
    ensures Flat(s, f) == f(s[0]) + Flat(s[1..], f)
  {
  }

  lemma {:induction false} FlatAppend<T, U>(a: seq<T>, b: seq<T>, f: T -> seq<U>)
    ensures Flat(a + b, f) == Flat(a, f) + Flat(b, f)
  {
    FlatNothing(f);
    hide Flat;
    if a == [] {
      assert a + b == b && [] + Flat(b, f) == Flat(b, f);
    } else {
      FlatAppend(a[1..], b, f);
      FlatFirst(a, f);
      FlatFirst(a + b, f);
      assert (a + b)[0] == a[0] && (a + b)[1..] == a[1..] + b;
      Regroup(f(a[0]), Flat(a[1..], f), Flat(b, f));
    }
  }

  lemma FlatCons<T, U>(x: T, s: seq<T>, f: T -> seq<U>)
    ensures Flat([x] + s, f) == f(x) + Flat(s, f)
  {
    assert ([x] + s)[1..] == s;
  }
}
