/** Vocabulary shared by every module: options, duplicate-free sequences and
    the order in which Python's `sorted` lists strings. */
module Prelude {

  datatype Option<+T> = None | Some(value: T)

  ghost predicate NoDup<T(!new)>(s: seq<T>) {
    forall i, j :: 0 <= i < j < |s| ==> s[i] != s[j]
  }

  function Elems<T>(s: seq<T>): set<T> {
    set x | x in s
  }

  /** Some `x` stands in front of some `y`. */
  ghost predicate Before<T(!new)>(s: seq<T>, x: T, y: T) {
    exists i, j :: 0 <= i < j < |s| && s[i] == x && s[j] == y
  }

  /** `r` lists entries of `s`, in the order of `s`. */
  ghost predicate InOrderOf<T(!new)>(r: seq<T>, s: seq<T>) {
    (forall x :: x in r ==> x in s) && forall i, j :: 0 <= i < j < |r| ==> Before(s, r[i], r[j])
  }

  lemma NothingInOrder<T(!new)>()
    ensures InOrderOf<T>([], [])
  {
  }

  /** One more entry of `s`, listed or left out. */
  lemma InOrderNext<T(!new)>(r: seq<T>, s: seq<T>, x: T)
    requires InOrderOf(r, s)
    ensures InOrderOf(r, s + [x]) && InOrderOf(r + [x], s + [x])
  {
    forall y, z | Before(s, y, z) ensures Before(s + [x], y, z) {
      var i, j :| 0 <= i < j < |s| && s[i] == y && s[j] == z;
      assert (s + [x])[i] == y && (s + [x])[j] == z;
    }
    forall i | 0 <= i < |r| ensures Before(s + [x], r[i], x) {
      assert r[i] in s;
      var k :| 0 <= k < |s| && s[k] == r[i];
      assert (s + [x])[k] == r[i] && (s + [x])[|s|] == x;
    }
  }

  lemma InOrderConcat<T(!new)>(a: seq<T>, s: seq<T>, b: seq<T>, t: seq<T>)
    requires InOrderOf(a, s) && InOrderOf(b, t)
    ensures InOrderOf(a + b, s + t)
  {
    var r, u := a + b, s + t;
    forall i, j | 0 <= i < j < |r| ensures Before(u, r[i], r[j]) {
      if j < |a| {
        assert Before(s, a[i], a[j]);
        var x, y :| 0 <= x < y < |s| && s[x] == a[i] && s[y] == a[j];
        assert u[x] == r[i] && u[y] == r[j];
      } else if i >= |a| {
        assert Before(t, b[i - |a|], b[j - |a|]);
        var x, y :| 0 <= x < y < |t| && t[x] == b[i - |a|] && t[y] == b[j - |a|];
        assert u[|s| + x] == r[i] && u[|s| + y] == r[j];
      } else {
        assert r[i] == a[i] && a[i] in s && r[j] == b[j - |a|] && b[j - |a|] in t;
        var x :| 0 <= x < |s| && s[x] == a[i];
        var y :| 0 <= y < |t| && t[y] == b[j - |a|];
        assert u[x] == r[i] && u[|s| + y] == r[j];
      }
    }
  }

  lemma ElemsConcat<T>(a: seq<T>, b: seq<T>)
    ensures Elems(a + b) == Elems(a) + Elems(b)
  {
  }

  lemma ElemsNext<T>(s: seq<T>, i: nat)
    requires i < |s|
    ensures Elems(s[..i + 1]) == Elems(s[..i]) + {s[i]}
  {
  }

  lemma ElemsHead<T(!new)>(s: seq<T>)
    requires s != []
    ensures Elems(s) == {s[0]} + Elems(s[1..])
    ensures NoDup(s) ==> NoDup(s[1..]) && s[0] !in Elems(s[1..])
  {
  }

  lemma NoDupConcat<T(!new)>(a: seq<T>, b: seq<T>)
    requires NoDup(a) && NoDup(b) && Elems(a) !! Elems(b)
    ensures NoDup(a + b)
  {
    forall i, j | 0 <= i < j < |a + b| ensures (a + b)[i] != (a + b)[j] {
      if i < |a| <= j {
        assert a[i] in Elems(a) && b[j - |a|] in Elems(b);
      }
    }
  }

  lemma NoDupSize<T(!new)>(s: seq<T>)
    requires NoDup(s)
    ensures |Elems(s)| == |s|
  {
    if s == [] {
      assert Elems(s) == {};
    } else {
      var k := |s| - 1;
      NoDupSize(s[..k]);
      assert Elems(s) == Elems(s[..k]) + {s[k]};
    }
  }

  lemma SubsetSize<T>(a: set<T>, b: set<T>)
    requires a <= b
    ensures |a| <= |b|
    ensures |a| == |b| ==> a == b
  {
    assert b == a + (b - a);
  }

  /** More entries than values: some value occurs twice. */
  lemma Pigeonhole<T(!new)>(s: seq<T>, values: set<T>)
    requires Elems(s) <= values && |values| < |s|
    ensures exists i, j :: 0 <= i < j < |s| && s[i] == s[j]
  {
    if NoDup(s) {
      NoDupSize(s);
      SubsetSize(Elems(s), values);
    }
  }

  /** Two duplicate-free listings of one set are permutations of each other. */
  lemma NoDupPermutation<T(!new)>(a: seq<T>, b: seq<T>)
    requires NoDup(a) && NoDup(b) && Elems(a) == Elems(b)
    ensures multiset(a) == multiset(b)
  {
    NoDupCounts(a);
    NoDupCounts(b);
  }

  lemma NoDupCounts<T(!new)>(s: seq<T>)
    requires NoDup(s)
    ensures multiset(s) == multiset(Elems(s))
  {
    if s == [] {
      assert Elems(s) == {};
    } else {
      var k := |s| - 1;
      NoDupCounts(s[..k]);
      assert s == s[..k] + [s[k]];
      assert Elems(s) == Elems(s[..k]) + {s[k]};
    }
  }

  /** How often `x` occurs in `s`. */
  function Count<T(==)>(s: seq<T>, x: T): nat {
    if s == [] then 0 else (if s[0] == x then 1 else 0) + Count(s[1..], x)
  }

  lemma {:induction false} CountConcat<T>(a: seq<T>, b: seq<T>, x: T)
    ensures Count(a + b, x) == Count(a, x) + Count(b, x)
  {
    if a == [] {
      assert a + b == b;
    } else {
      assert (a + b)[1..] == a[1..] + b;
      CountConcat(a[1..], b, x);
    }
  }

  lemma {:induction false} CountIn<T>(s: seq<T>, x: T)
    ensures x in s <==> Count(s, x) > 0
  {
    if s != [] {
      CountIn(s[1..], x);
      assert s == [s[0]] + s[1..];
    }
  }

  lemma {:induction false} CountNoDup<T(!new)>(s: seq<T>, x: T)
    requires NoDup(s)
    ensures Count(s, x) == if x in s then 1 else 0
  {
    if s != [] {
      ElemsHead(s);
      CountNoDup(s[1..], x);
      assert s == [s[0]] + s[1..];
    }
  }

  lemma {:induction false} CountsNoDup<T(!new)>(s: seq<T>)
    requires forall x :: Count(s, x) <= 1
    ensures NoDup(s)
  {
    if s != [] {
      forall x ensures Count(s[1..], x) <= 1 {
        assert Count(s, x) <= 1;
      }
      CountsNoDup(s[1..]);
      CountIn(s[1..], s[0]);
      assert Count(s, s[0]) <= 1;
      forall i, j | 0 <= i < j < |s| ensures s[i] != s[j] {
        assert s[j] == s[1..][j - 1];
        assert i > 0 ==> s[i] == s[1..][i - 1];
      }
    }
  }

  /** Keep the elements that satisfy `keep`, in order. */
  function Filter<T(!new)>(keep: T -> bool, s: seq<T>): (r: seq<T>)
    ensures forall x :: x in r <==> x in s && keep(x)
    ensures |r| <= |s|
  {
    if s == [] then []
    else if keep(s[0]) then [s[0]] + Filter(keep, s[1..])
    else Filter(keep, s[1..])
  }

  lemma FilterNoDup<T(!new)>(keep: T -> bool, s: seq<T>)
    requires NoDup(s)
    ensures NoDup(Filter(keep, s))
  {
  }

  lemma FilterConcat<T(!new)>(keep: T -> bool, a: seq<T>, b: seq<T>)
    ensures Filter(keep, a + b) == Filter(keep, a) + Filter(keep, b)
  {
    if a == [] {
      assert a + b == b;
    } else {
      assert (a + b)[1..] == a[1..] + b;
      FilterConcat(keep, a[1..], b);
    }
  }

  /** One more element examined by a filtering loop. */
  lemma FilterNext<T(!new)>(keep: T -> bool, s: seq<T>, i: nat)
    requires i < |s|
    ensures Filter(keep, s[..i + 1]) == Filter(keep, s[..i]) + if keep(s[i]) then [s[i]] else []
  {
    assert s[..i + 1] == s[..i] + [s[i]];
    FilterConcat(keep, s[..i], [s[i]]);
  }

  lemma {:induction false} FilterInOrder<T(!new)>(keep: T -> bool, s: seq<T>)
    ensures InOrderOf(Filter(keep, s), s)
  {
    hide InOrderOf;
    if s == [] {
      NothingInOrder<T>();
    } else {
      var k := |s| - 1;
      FilterInOrder(keep, s[..k]);
      FilterNext(keep, s, k);
      assert s[..k + 1] == s && s == s[..k] + [s[k]];
      InOrderNext(Filter(keep, s[..k]), s[..k], s[k]);
      assert Filter(keep, s[..k]) + [] == Filter(keep, s[..k]);
    }
  }

  // ---------------------------------------------------------------------
  // String order
  // ---------------------------------------------------------------------

  /** Lexicographic order on code points: Python's `<=` on str. */
  predicate Le(a: string, b: string) {
    a == [] || (b != [] && (a[0] < b[0] || (a[0] == b[0] && Le(a[1..], b[1..]))))
  }

  /** Either `a` begins `b`, or the first code points that differ decide. */
  lemma {:induction false} LeIs(a: string, b: string)
    ensures Le(a, b) <==> a <= b || exists i :: 0 <= i < |a| && i < |b| && a[..i] == b[..i] && a[i] < b[i]
  {
    if a != [] && b != [] && a[0] == b[0] {
      LeIs(a[1..], b[1..]);
      if i :| 0 <= i < |a| && i < |b| && a[..i] == b[..i] && a[i] < b[i] {
        assert a[1..][i - 1] < b[1..][i - 1];
        assert a[1..][..i - 1] == a[..i][1..] && b[1..][..i - 1] == b[..i][1..];
      }
      if i :| 0 <= i < |a[1..]| && i < |b[1..]| && a[1..][..i] == b[1..][..i] && a[1..][i] < b[1..][i] {
        assert a[..i + 1] == [a[0]] + a[1..][..i] && b[..i + 1] == [b[0]] + b[1..][..i];
        assert a[i + 1] < b[i + 1];
      }
      assert a == [a[0]] + a[1..] && b == [b[0]] + b[1..];
    } else if a != [] && b != [] {
      assert a[..0] == b[..0];
    }
  }

  lemma {:induction false} LeTotal(a: string, b: string)
    ensures Le(a, b) || Le(b, a)
  {
    if a != [] && b != [] && a[0] == b[0] {
      LeTotal(a[1..], b[1..]);
    }
  }

  lemma {:induction false} LeAntisymmetric(a: string, b: string)
    requires Le(a, b) && Le(b, a)
    ensures a == b
  {
    if a != [] {
      LeAntisymmetric(a[1..], b[1..]);
      assert a == [a[0]] + a[1..] && b == [b[0]] + b[1..];
    }
  }

  lemma {:induction false} LeTransitive(a: string, b: string, c: string)
    requires Le(a, b) && Le(b, c)
    ensures Le(a, c)
  {
    if a != [] && a[0] == b[0] && b[0] == c[0] {
      LeTransitive(a[1..], b[1..], c[1..]);
    }
  }

  lemma {:induction false} HasLeast(s: set<string>)
    requires s != {}
    ensures exists x :: x in s && forall y :: y in s ==> Le(x, y)
    decreases s
  {
    var z :| z in s;
    var rest := s - {z};
    LeTotal(z, z);
    if rest == {} {
      assert s == {z};
    } else {
      HasLeast(rest);
      var x :| x in rest && forall y :: y in rest ==> Le(x, y);
      LeTotal(x, z);
      if Le(x, z) {
        assert forall y :: y in s ==> y in rest || y == z;
      } else {
        forall y | y in s ensures Le(z, y) {
          if y != z {
            LeTransitive(z, x, y);
          }
        }
      }
    }
  }

  lemma HasLeastIn(m: multiset<string>)
    requires m != multiset{}
    ensures exists x :: x in m && forall y :: y in m ==> Le(x, y)
  {
    var s := set x | x in m;
    var z :| z in m;
    assert z in s;
    HasLeast(s);
    var x :| x in s && forall y :: y in s ==> Le(x, y);
  }

  lemma LeastIsUnique()
    ensures forall x, y :: Le(x, y) && Le(y, x) ==> x == y
  {
    forall x, y | Le(x, y) && Le(y, x) ensures x == y { LeAntisymmetric(x, y); }
  }

  function Least(m: multiset<string>): (x: string)
    requires m != multiset{}
    ensures x in m && forall y :: y in m ==> Le(x, y)
  {
    HasLeastIn(m);
    LeastIsUnique();
    var x :| x in m && forall y | y in m :: Le(x, y);
    x
  }

  /** `sorted(...)`: the elements of `m` in ascending order. */
  function SortedOf(m: multiset<string>): (r: seq<string>)
    ensures multiset(r) == m
    decreases |m|
  {
    if m == multiset{} then []
    else [Least(m)] + SortedOf(m - multiset{Least(m)})
  }

  ghost predicate Ascending(s: seq<string>) {
    s != [] ==> Ascending(s[1..]) && forall y :: y in s[1..] ==> Le(s[0], y)
  }

  lemma {:induction false} SortedOfAscends(m: multiset<string>)
    ensures Ascending(SortedOf(m))
    decreases |m|
  {
    if m != multiset{} {
      var rest := SortedOf(m - multiset{Least(m)});
      SortedOfAscends(m - multiset{Least(m)});
      assert SortedOf(m)[1..] == rest;
      assert forall y :: y in rest ==> y in multiset(rest);
    }
  }

  lemma {:induction false} AscendingBefore(s: seq<string>, x: string, y: string)
    requires Ascending(s) && Before(s, x, y)
    ensures Le(x, y)
  {
    var i, j :| 0 <= i < j < |s| && s[i] == x && s[j] == y;
    if i == 0 {
      assert s[1..][j - 1] == y;
    } else {
      assert s[1..][i - 1] == x && s[1..][j - 1] == y;
      AscendingBefore(s[1..], x, y);
    }
  }

  /** What is listed in the order of an ascending sequence ascends. */
  ghost predicate Ascends(r: seq<string>) {
    forall i, j :: 0 <= i < j < |r| ==> Le(r[i], r[j])
  }

  lemma InOrderAscends(r: seq<string>, m: multiset<string>)
    requires InOrderOf(r, SortedOf(m))
    ensures Ascends(r)
  {
    SortedOfAscends(m);
    hide Ascending, SortedOf, Before;
    forall i, j | 0 <= i < j < |r| ensures Le(r[i], r[j]) {
      AscendingBefore(SortedOf(m), r[i], r[j]);
    }
  }

  lemma {:induction false} SingleCountsNoDup(r: seq<string>)
    requires forall x :: multiset(r)[x] <= 1
    ensures NoDup(r)
  {
    if r != [] {
      var k := |r| - 1;
      assert r == r[..k] + [r[k]];
      assert multiset(r) == multiset(r[..k]) + multiset{r[k]};
      forall x ensures multiset(r[..k])[x] <= 1 {
        assert multiset(r)[x] <= 1;
      }
      SingleCountsNoDup(r[..k]);
      assert r[k] !in r[..k] by {
        assert multiset(r)[r[k]] <= 1;
      }
    }
  }

  lemma SortedOfSet(s: set<string>)
    ensures Elems(SortedOf(multiset(s))) == s && NoDup(SortedOf(multiset(s)))
  {
    var r := SortedOf(multiset(s));
    assert forall x :: x in r <==> x in multiset(r);
    SingleCountsNoDup(r);
  }
}
