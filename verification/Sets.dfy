/** Finite sets of ids: least elements, ascending enumeration and cardinalities. */
module Sets {
  ghost predicate IsLeast(m: nat, s: set<nat>) {
    m in s && forall x :: x in s ==> m <= x
  }

  lemma {:induction false} LeastExists(s: set<nat>)
    requires s != {}
    ensures exists m :: IsLeast(m, s)
  {
    var x :| x in s;
    if s == {x} {
      assert IsLeast(x, s);
    } else {
      LeastExists(s - {x});
      var m :| IsLeast(m, s - {x});
      assert forall y :: y in s ==> y == x || y in s - {x};
      assert IsLeast(if x < m then x else m, s);
    }
  }

  ghost function Min(s: set<nat>): (m: nat)
    requires s != {}
    ensures IsLeast(m, s)
  {
    LeastExists(s);
    var m :| IsLeast(m, s);
    m
  }

  /** The elements of `s` in ascending order: how an ordered set is walked. */
  ghost function Sorted(s: set<nat>): seq<nat>
  {
    if s == {} then [] else [Min(s)] + Sorted(s - {Min(s)})
  }

  ghost predicate Ascending(q: seq<nat>) {
    forall j, k :: 0 <= j < k < |q| ==> q[j] < q[k]
  }

  lemma {:induction false} SortedEnumerates(s: set<nat>)
    ensures |Sorted(s)| == |s|
    ensures SetOf(Sorted(s)) == s
    ensures Ascending(Sorted(s))
  {
    hide SetOf; hide Ascending; hide IsLeast;
    if s == {} {
      SortedNothing();
    } else {
      var m := Min(s);
      LeastIsIn(m, s);
      SortedEnumerates(s - {m});
      SetOfCons(m, Sorted(s - {m}));
      AscendingCons(m, Sorted(s - {m}), s);
    }
  }

  lemma LeastIsIn(m: nat, s: set<nat>)
    requires IsLeast(m, s)
    ensures m in s
  {
  }

  lemma SortedNothing()
    ensures Sorted({}) == [] && SetOf<nat>([]) == {} && Ascending([])
  {
  }

  lemma AscendingCons(m: nat, rest: seq<nat>, s: set<nat>)
    requires IsLeast(m, s) && Ascending(rest) && SetOf(rest) == s - {m}
    ensures Ascending([m] + rest)
  {
    forall j | 0 <= j < |rest| ensures m < rest[j] {
      assert rest[j] in SetOf(rest);
    }
  }

  lemma SortedStep(s: set<nat>, m: nat)
    requires IsLeast(m, s)
    ensures Sorted(s) == [m] + Sorted(s - {m})
  {
    assert m == Min(s);
  }

  lemma {:induction false} SubsetCardinality<T>(a: set<T>, b: set<T>)
    requires a <= b
    ensures |a| <= |b|
  {
    assert b == a + (b - a);
  }

  ghost predicate NoDup<T>(q: seq<T>) {
    forall j, k :: 0 <= j < k < |q| ==> q[j] != q[k]
  }

  lemma NoDupAppend<T>(a: seq<T>, b: seq<T>)
    requires NoDup(a) && NoDup(b) && forall x :: x in a ==> x !in b
    ensures NoDup(a + b)
  {
    forall j, k | 0 <= j < k < |a + b| ensures (a + b)[j] != (a + b)[k] {
      assert j < |a| ==> (a + b)[j] in a;
      assert k >= |a| ==> (a + b)[k] in b;
    }
  }

  lemma NoDupSnoc<T>(a: seq<T>, x: T)
    requires NoDup(a) && x !in a
    ensures NoDup(a + [x])
  {
  }

  function SetOf<T>(q: seq<T>): set<T> {
    set x | x in q
  }

  lemma SetOfNothing()
    ensures SetOf<nat>([]) == {}
  {
  }

  lemma SetOfOne<T>(x: T)
    ensures SetOf([x]) == {x}
  {
  }

  lemma SetOfCons<T>(x: T, q: seq<T>)
    ensures SetOf([x] + q) == {x} + SetOf(q)
  {
  }

  lemma SetOfSnoc<T>(q: seq<T>, x: T)
    ensures SetOf(q + [x]) == SetOf(q) + {x}
  {
  }
}
