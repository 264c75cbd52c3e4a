/** Filtering, counting, sorting and least elements of lists. */
module Lists {
  function Min(a: nat, b: nat): nat {
    if a < b then a else b
  }

  ghost function Elements<T(!new)>(s: seq<T>): set<T> {
    set x | x in s
  }

  ghost predicate NoRepeats<T(!new)>(s: seq<T>) {
    forall i, j :: 0 <= i < j < |s| ==> s[i] != s[j]
  }

  lemma {:induction false} SizeOfList<T(!new)>(s: seq<T>)
    requires NoRepeats(s)
    ensures |Elements(s)| == |s|
  {
    if s != [] {
      var n := |s| - 1;
      SizeOfList(s[..n]);
      assert s == s[..n] + [s[n]];
      assert Elements(s) == Elements(s[..n]) + {s[n]};
    }
  }

  lemma Subset<T(!new)>(a: set<T>, b: set<T>)
    requires a <= b
    ensures |a| <= |b|
  {
    assert b == a + (b - a);
  }

  lemma Removed<T(!new)>(a: set<T>, b: set<T>)
    ensures |a - b| >= |a| - |b|
  {
    assert a == (a - b) + (a * b);
    Subset(a * b, b);
  }

  // ----- filtering and counting -----

  function Filter<T(!new)>(s: seq<T>, p: T -> bool): (r: seq<T>)
    ensures forall x {:trigger x in r} :: x in r <==> x in s && p(x)
    ensures |r| <= |s|
  {
    if s == [] then []
    else
      var rest := Filter(s[1..], p);
      assert s == [s[0]] + s[1..];
      if p(s[0]) then [s[0]] + rest else rest
  }

  lemma NoRepeatsCons<T(!new)>(x: T, s: seq<T>)
    requires NoRepeats(s) && x !in s
    ensures NoRepeats([x] + s)
  {
  }

  lemma NoRepeatsSnoc<T(!new)>(s: seq<T>, x: T)
    requires NoRepeats(s) && x !in s
    ensures NoRepeats(s + [x])
  {
  }

  lemma HeadOnce<T(!new)>(x: T, s: seq<T>)
    requires NoRepeats([x] + s)
    ensures x !in s && NoRepeats(s)
  {
    assert forall i :: 0 <= i < |s| ==> ([x] + s)[i + 1] == s[i];
    assert ([x] + s)[0] == x;
  }

  lemma {:induction false} FilterNoRepeats<T(!new)>(s: seq<T>, p: T -> bool)
    requires NoRepeats(s)
    ensures NoRepeats(Filter(s, p))
  {
    if s != [] {
      assert s[0] !in s[1..];
      FilterNoRepeats(s[1..], p);
      if p(s[0]) {
        NoRepeatsCons(s[0], Filter(s[1..], p));
      }
    }
  }

  lemma {:induction false} FilterAppend<T(!new)>(a: seq<T>, b: seq<T>, p: T -> bool)
    ensures Filter(a + b, p) == Filter(a, p) + Filter(b, p)
  {
    if a == [] {
      assert a + b == b;
    } else {
      FilterAppend(a[1..], b, p);
      assert (a + b)[1..] == a[1..] + b;
    }
  }

  lemma {:induction false} FilterAll<T(!new)>(s: seq<T>, p: T -> bool)
    requires forall x :: x in s ==> p(x)
    ensures Filter(s, p) == s
  {
    if s != [] {
      assert s == [s[0]] + s[1..];
      FilterAll(s[1..], p);
    }
  }

  function Count<T(!new)>(s: seq<T>, p: T -> bool): (n: nat)
    ensures n <= |s|
  {
    if s == [] then 0 else (if p(s[0]) then 1 else 0) + Count(s[1..], p)
  }

  ghost function Where<T(!new)>(s: seq<T>, p: T -> bool): set<T> {
    set x | x in s && p(x)
  }

  lemma {:induction false} CountIsSize<T(!new)>(s: seq<T>, p: T -> bool)
    requires NoRepeats(s)
    ensures Count(s, p) == |Where(s, p)|
  {
    if s != [] {
      var first, rest := s[0], s[1..];
      CountIsSize(rest, p);
      assert first !in rest;
      assert s == [first] + rest;
      if p(first) {
        assert Where(s, p) == Where(rest, p) + {first};
      } else {
        assert Where(s, p) == Where(rest, p);
      }
    }
  }

  lemma {:induction false} CountAppend<T(!new)>(s: seq<T>, p: T -> bool, x: T)
    ensures Count(s + [x], p) == Count(s, p) + (if p(x) then 1 else 0)
  {
    if s != [] {
      CountAppend(s[1..], p, x);
      assert (s + [x])[1..] == s[1..] + [x];
    }
  }

  lemma {:induction false} CountPositive<T(!new)>(s: seq<T>, p: T -> bool)
    ensures Count(s, p) > 0 <==> exists x :: x in s && p(x)
  {
    if s != [] {
      CountPositive(s[1..], p);
      assert s == [s[0]] + s[1..];
    }
  }

  // ----- sorting -----

  ghost predicate Ordering<T(!new)>(leq: (T, T) -> bool) {
    && (forall x, y {:trigger leq(x, y), leq(y, x)} :: leq(x, y) || leq(y, x))
    && (forall x, y, z :: leq(x, y) && leq(y, z) ==> leq(x, z))
  }

  ghost predicate InOrder<T(!new)>(s: seq<T>, leq: (T, T) -> bool) {
    forall i, j :: 0 <= i < j < |s| ==> leq(s[i], s[j])
  }

  function Insert<T(!new)>(x: T, s: seq<T>, leq: (T, T) -> bool): (r: seq<T>)
    ensures |r| == |s| + 1
    ensures forall y {:trigger y in r} :: y in r <==> y == x || y in s
  {
    if s == [] || leq(x, s[0]) then [x] + s
    else
      assert s == [s[0]] + s[1..];
      [s[0]] + Insert(x, s[1..], leq)
  }

  function Sort<T(!new)>(s: seq<T>, leq: (T, T) -> bool): (r: seq<T>)
    ensures |r| == |s|
    ensures forall y {:trigger y in r} :: y in r <==> y in s
  {
    if s == [] then []
    else
      assert s == [s[0]] + s[1..];
      Insert(s[0], Sort(s[1..], leq), leq)
  }

  lemma {:induction false} InsertInOrder<T(!new)>(x: T, s: seq<T>, leq: (T, T) -> bool)
    requires Ordering(leq) && InOrder(s, leq)
    ensures InOrder(Insert(x, s, leq), leq)
  {
    if s != [] {
      assert leq(x, s[0]) || leq(s[0], x);
      if !leq(x, s[0]) {
        InsertInOrder(x, s[1..], leq);
        assert s == [s[0]] + s[1..];
        forall y | y in Insert(x, s[1..], leq) ensures leq(s[0], y) {
          assert y == x || y in s[1..];
        }
      }
    }
  }

  lemma {:induction false} InsertPermutes<T(!new)>(x: T, s: seq<T>, leq: (T, T) -> bool)
    ensures multiset(Insert(x, s, leq)) == multiset(s) + multiset{x}
  {
    if s != [] {
      assert s == [s[0]] + s[1..];
      InsertPermutes(x, s[1..], leq);
    }
  }

  lemma {:induction false} InsertNoRepeats<T(!new)>(x: T, s: seq<T>, leq: (T, T) -> bool)
    requires NoRepeats(s) && x !in s
    ensures NoRepeats(Insert(x, s, leq))
  {
    if s == [] || leq(x, s[0]) {
      NoRepeatsCons(x, s);
    } else {
      assert s[0] !in s[1..];
      InsertNoRepeats(x, s[1..], leq);
      NoRepeatsCons(s[0], Insert(x, s[1..], leq));
    }
  }

  lemma {:induction false} SortInOrder<T(!new)>(s: seq<T>, leq: (T, T) -> bool)
    requires Ordering(leq)
    ensures InOrder(Sort(s, leq), leq)
  {
    if s != [] {
      SortInOrder(s[1..], leq);
      InsertInOrder(s[0], Sort(s[1..], leq), leq);
    }
  }

  lemma {:induction false} SortPermutes<T(!new)>(s: seq<T>, leq: (T, T) -> bool)
    ensures multiset(Sort(s, leq)) == multiset(s)
  {
    if s != [] {
      assert s == [s[0]] + s[1..];
      SortPermutes(s[1..], leq);
      InsertPermutes(s[0], Sort(s[1..], leq), leq);
    }
  }

  lemma {:induction false} SortNoRepeats<T(!new)>(s: seq<T>, leq: (T, T) -> bool)
    requires NoRepeats(s)
    ensures NoRepeats(Sort(s, leq))
  {
    if s != [] {
      assert s[0] !in s[1..];
      SortNoRepeats(s[1..], leq);
      InsertNoRepeats(s[0], Sort(s[1..], leq), leq);
    }
  }

  lemma {:induction false} FilterInOrder<T(!new)>(s: seq<T>, leq: (T, T) -> bool, p: T -> bool)
    requires InOrder(s, leq)
    ensures InOrder(Filter(s, p), leq)
  {
    if s != [] {
      FilterInOrder(s[1..], leq, p);
      forall x | x in Filter(s[1..], p) ensures leq(s[0], x) {
        assert x in s[1..];
      }
    }
  }

  // ----- least elements -----

  ghost predicate Transitive<T(!new)>(less: (T, T) -> bool) {
    forall x, y, z :: less(x, y) && less(y, z) ==> less(x, z)
  }

  /** `best` is the least of the elements of `s` that satisfy `ok`. */
  ghost predicate LeastOf<T(!new)>(s: seq<T>, ok: T -> bool, less: (T, T) -> bool, best: T) {
    best in s && ok(best) && forall x :: x in s && ok(x) && x != best ==> less(best, x)
  }

  lemma LeastSkip<T(!new)>(s: seq<T>, ok: T -> bool, less: (T, T) -> bool, best: T, x: T)
    requires LeastOf(s, ok, less, best) && (ok(x) && x != best ==> less(best, x))
    ensures LeastOf(s + [x], ok, less, best)
  {
  }

  lemma LeastTake<T(!new)>(s: seq<T>, ok: T -> bool, less: (T, T) -> bool, best: T, x: T)
    requires Transitive(less) && LeastOf(s, ok, less, best) && ok(x) && less(x, best)
    ensures LeastOf(s + [x], ok, less, x)
  {
  }

  /** A finite set of numbers has a least one in any order that is total on it. */
  lemma {:induction false} LeastExists(ids: set<nat>, less: (nat, nat) -> bool) returns (best: nat)
    requires ids != {} && Transitive(less)
    requires forall x, y :: x in ids && y in ids && x != y ==> less(x, y) || less(y, x)
    ensures best in ids && forall id :: id in ids && id != best ==> less(best, id)
    decreases |ids|
  {
    var id :| id in ids;
    best := id;
    if ids != {id} {
      assert ids - {id} != {};
      var rest := LeastExists(ids - {id}, less);
      if less(rest, id) {
        best := rest;
      }
    }
  }
}
