/** The items of a sequence that meet a condition. */
module Filters {
  function Filter<T>(p: T -> bool, items: seq<T>): seq<T> {
    if items == [] then [] else (if p(items[0]) then [items[0]] else []) + Filter(p, items[1..])
  }

  lemma {:induction false} FilterMember<T>(p: T -> bool, items: seq<T>, x: T)
    ensures x in Filter(p, items) <==> x in items && p(x)
  {
    if items != [] {
      FilterMember(p, items[1..], x);
    }
  }

  lemma {:induction false} FilterSame<T>(p: T -> bool, q: T -> bool, items: seq<T>)
    requires forall x :: x in items ==> p(x) == q(x)
    ensures Filter(p, items) == Filter(q, items)
  {
    if items != [] {
      assert items[0] in items;
      FilterSame(p, q, items[1..]);
    }
  }

  lemma {:induction false} FilterJoin<T>(p: T -> bool, a: seq<T>, b: seq<T>)
    ensures Filter(p, a + b) == Filter(p, a) + Filter(p, b)
  {
    if a == [] {
      assert a + b == b;
    } else {
      FilterJoin(p, a[1..], b);
      assert (a + b)[1..] == a[1..] + b && (a + b)[0] == a[0];
      Regroup(if p(a[0]) then [a[0]] else [], Filter(p, a[1..]), Filter(p, b));
    }
  }

  lemma Regroup<T>(a: seq<T>, b: seq<T>, c: seq<T>)
    ensures a + (b + c) == (a + b) + c
  {
  }

  lemma FilterOne<T>(p: T -> bool, x: T)
    ensures Filter(p, [x]) == if p(x) then [x] else []
  {
    assert [x][1..] == [];
  }

  lemma {:induction false} FilterAll<T>(p: T -> bool, items: seq<T>)
    requires forall x :: x in items ==> p(x)
    ensures Filter(p, items) == items
  {
    if items != [] {
      assert items[0] in items;
      FilterAll(p, items[1..]);
    }
  }

  lemma {:induction false} FilterNone<T>(p: T -> bool, items: seq<T>)
    requires forall x :: x in items ==> !p(x)
    ensures Filter(p, items) == []
  {
    if items != [] {
      assert items[0] in items;
      FilterNone(p, items[1..]);
    }
  }

  /** Filtering twice is filtering by both conditions. */
  lemma {:induction false} FilterTwice<T>(p: T -> bool, q: T -> bool, both: T -> bool, items: seq<T>)
    requires forall x :: x in items ==> both(x) == (p(x) && q(x))
    ensures Filter(p, Filter(q, items)) == Filter(both, items)
  {
    if items != [] {
      assert items[0] in items;
      FilterTwice(p, q, both, items[1..]);
      FilterJoin(p, if q(items[0]) then [items[0]] else [], Filter(q, items[1..]));
      FilterOne(p, items[0]);
    }
  }

  ghost predicate DistinctBy<T>(f: T -> nat, items: seq<T>) {
    forall i, j :: 0 <= i < j < |items| ==> f(items[i]) != f(items[j])
  }

  /** Filtering keeps what is distinct distinct. */
  lemma {:induction false} FilterDistinct<T>(p: T -> bool, f: T -> nat, items: seq<T>)
    requires DistinctBy(f, items)
    ensures DistinctBy(f, Filter(p, items))
  {
    if items != [] {
      assert DistinctBy(f, items[1..]);
      FilterDistinct(p, f, items[1..]);
      var rest := Filter(p, items[1..]);
      forall x | x in rest ensures f(x) != f(items[0]) {
        FilterMember(p, items[1..], x);
        var i :| 0 <= i < |items[1..]| && items[1..][i] == x;
        assert items[i + 1] == x;
      }
      DistinctFront(f, items[0], rest);
      assert Filter(p, items) == if p(items[0]) then [items[0]] + rest else rest;
    }
  }

  lemma DistinctFront<T>(f: T -> nat, x: T, rest: seq<T>)
    requires DistinctBy(f, rest) && forall y :: y in rest ==> f(y) != f(x)
    ensures DistinctBy(f, [x] + rest)
  {
    var all := [x] + rest;
    forall i, j | 0 <= i < j < |all| ensures f(all[i]) != f(all[j]) {
      assert all[j] == rest[j - 1] && rest[j - 1] in rest;
    }
  }
}
