/** Counting facts about finite sets and duplicate-free sequences shared by the models. */
module Collections {

  datatype Option<+T> = None | Some(value: T)

  datatype Result<+T, +E> = Ok(value: T) | Err(error: E)

  ghost predicate Distinct<T(!new)>(s: seq<T>) {
    forall i, j :: 0 <= i < j < |s| ==> s[i] != s[j]
  }

  function Elements<T(!new)>(s: seq<T>): (r: set<T>)
    ensures forall x :: x in r <==> x in s
  {
    set x | x in s
  }

  ghost function Pick<T>(s: set<T>): (x: T)
    requires s != {}
    ensures x in s
  {
    var x :| x in s; x
  }

  method Choose<T>(s: set<T>) returns (x: T)
    requires s != {}
    ensures x in s
  {
    x :| x in s;
  }

  /** The integers `0 .. n`, `n` excluded. */
  function Below(n: nat): (r: set<int>)
    ensures forall x :: x in r <==> 0 <= x < n
    ensures |r| == n
  {
    if n == 0 then {} else Below(n - 1) + {n - 1}
  }

  lemma SubsetSize<T>(a: set<T>, b: set<T>)
    requires a <= b
    ensures |a| <= |b|
    ensures a != b ==> |a| < |b|
  {
    assert b == a + (b - a);
  }

  /** A one-to-one image has as many members. */
  lemma {:induction false} SameSize<S, T>(a: set<T>, b: set<S>, f: S -> T)
    requires forall x :: x in b ==> f(x) in a
    requires forall y :: y in a ==> exists x :: x in b && f(x) == y
    requires forall x, y :: x in b && y in b && f(x) == f(y) ==> x == y
    ensures |a| == |b|
    decreases |b|
  {
    if b == {} {
      if a != {} {
        var y := Pick(a);
        assert false;
      }
    } else {
      var x := Pick(b);
      SameSize(a - {f(x)}, b - {x}, f);
    }
  }

  lemma {:induction false} DistinctSize<T(!new)>(s: seq<T>)
    requires Distinct(s)
    ensures |Elements(s)| == |s|
  {
    if s != [] {
      var init, last := s[..|s| - 1], s[|s| - 1];
      DistinctSize(init);
      assert s == init + [last];
      assert last !in init;
      assert Elements(s) == Elements(init) + {last};
    }
  }

  /** A duplicate-free sequence of indices below `n` has at most `n` entries. */
  lemma DistinctFit(s: seq<int>, n: nat)
    requires Distinct(s) && forall k :: 0 <= k < |s| ==> 0 <= s[k] < n
    ensures |s| <= n
  {
    DistinctSize(s);
    SubsetSize(Elements(s), Below(n));
  }

  lemma {:induction false} IncreasingAgree(a: seq<int>, b: seq<int>)
    requires forall i, j :: 0 <= i < j < |a| ==> a[i] < a[j]
    requires forall i, j :: 0 <= i < j < |b| ==> b[i] < b[j]
    requires forall x :: x in a <==> x in b
    ensures a == b
  {
    if a != [] && b != [] {
      var m, n := |a| - 1, |b| - 1;
      assert a[m] in b && b[n] in a;
      assert a[m] == b[n];
      forall x | x in a[..m] ensures x in b[..n] {
        assert x in b && x != b[n];
      }
      forall x | x in b[..n] ensures x in a[..m] {
        assert x in a && x != a[m];
      }
      IncreasingAgree(a[..m], b[..n]);
      assert a == a[..m] + [a[m]] && b == b[..n] + [b[n]];
    } else {
      SameElementsEmpty(a, b);
    }
  }

  lemma SameElementsEmpty(a: seq<int>, b: seq<int>)
    requires forall x :: x in a <==> x in b
    ensures a == [] <==> b == []
  {
    if a != [] {
      var x := a[0];
      assert x in a;
    }
    if b != [] {
      var x := b[0];
      assert x in b;
    }
  }

  // ---------- counting in a multiset ----------

  ghost function Count<T(!new)>(m: multiset<T>, p: T -> bool): nat
    decreases |m|
  {
    if m == multiset{} then 0
    else var x :| x in m; (if p(x) then 1 else 0) + Count(m - multiset{x}, p)
  }

  /** The order in which elements are counted does not matter. */
  lemma {:induction false} CountTake<T(!new)>(m: multiset<T>, p: T -> bool, x: T)
    requires x in m
    ensures Count(m, p) == (if p(x) then 1 else 0) + Count(m - multiset{x}, p)
    decreases |m|
  {
    var y :| y in m && Count(m, p) == (if p(y) then 1 else 0) + Count(m - multiset{y}, p);
    if y != x {
      var rest := m - multiset{y};
      CountTake(rest, p, x);
      CountTake(m - multiset{x}, p, y);
      assert rest - multiset{x} == m - multiset{x} - multiset{y};
    }
  }

  lemma {:induction false} CountSum<T(!new)>(a: multiset<T>, b: multiset<T>, p: T -> bool)
    ensures Count(a + b, p) == Count(a, p) + Count(b, p)
    decreases |a|
  {
    if a == multiset{} {
      assert a + b == b;
    } else {
      var x :| x in a;
      CountTake(a, p, x);
      CountTake(a + b, p, x);
      assert a + b - multiset{x} == (a - multiset{x}) + b;
      CountSum(a - multiset{x}, b, p);
    }
  }

  lemma {:induction false} CountBounds<T(!new)>(m: multiset<T>, p: T -> bool)
    ensures Count(m, p) <= |m|
    ensures (forall x :: x in m ==> p(x)) ==> Count(m, p) == |m|
    ensures (forall x :: x in m ==> !p(x)) ==> Count(m, p) == 0
    decreases |m|
  {
    if m != multiset{} {
      var x :| x in m;
      CountTake(m, p, x);
      CountBounds(m - multiset{x}, p);
    }
  }

  lemma {:induction false} CountMonotone<T(!new)>(m: multiset<T>, p: T -> bool, q: T -> bool)
    requires forall x :: p(x) ==> q(x)
    ensures Count(m, p) <= Count(m, q)
    decreases |m|
  {
    if m != multiset{} {
      var x :| x in m;
      CountTake(m, p, x);
      CountTake(m, q, x);
      CountMonotone(m - multiset{x}, p, q);
    }
  }

  // ---------- sorting by a key ----------

  ghost predicate Falling<T>(s: seq<T>, key: T -> real) { forall i, j :: 0 <= i < j < |s| ==> key(s[i]) >= key(s[j]) }

  function InsertBy<T>(x: T, s: seq<T>, key: T -> real): seq<T> {
    if s == [] || key(x) >= key(s[0]) then [x] + s else [s[0]] + InsertBy(x, s[1..], key)
  }

  /** Highest key first. */
  function SortedBy<T>(s: seq<T>, key: T -> real): seq<T> {
    if s == [] then [] else InsertBy(s[0], SortedBy(s[1..], key), key)
  }

  lemma {:induction false} InsertByAdds<T>(x: T, s: seq<T>, key: T -> real)
    ensures multiset(InsertBy(x, s, key)) == multiset(s) + multiset{x}
  {
    if s != [] && key(x) < key(s[0]) {
      InsertByAdds(x, s[1..], key);
      assert s == [s[0]] + s[1..];
    }
  }

  lemma {:induction false} InsertByFalls<T>(x: T, s: seq<T>, key: T -> real)
    requires Falling(s, key)
    ensures Falling(InsertBy(x, s, key), key)
  {
    if s != [] && key(x) < key(s[0]) {
      var first, tail := s[0], s[1..];
      var rest := InsertBy(x, tail, key);
      InsertByFalls(x, tail, key);
      InsertByAdds(x, tail, key);
      forall k | 0 <= k < |rest| ensures key(first) >= key(rest[k]) {
        var y := rest[k];
        assert y in multiset(rest);
        assert y == x || y in tail;
      }
    }
  }

  lemma {:induction false} SortedByIs<T>(s: seq<T>, key: T -> real)
    ensures multiset(SortedBy(s, key)) == multiset(s) && Falling(SortedBy(s, key), key) && |SortedBy(s, key)| == |s|
  {
    if s != [] {
      SortedByIs(s[1..], key);
      InsertByAdds(s[0], SortedBy(s[1..], key), key);
      InsertByFalls(s[0], SortedBy(s[1..], key), key);
      assert s == [s[0]] + s[1..];
      assert |multiset(SortedBy(s, key))| == |multiset(s)|;
    }
  }
}
