/** Identifiers and the order Python gives them: strings compare by code point,
    the shorter one first when it is a prefix of the other. */
module Ordering {
  type Id = string

  predicate Before(a: Id, b: Id) {
    if b == "" then false
    else if a == "" then true
    else a[0] < b[0] || (a[0] == b[0] && Before(a[1..], b[1..]))
  }

  predicate AtMost(a: Id, b: Id) {
    a == b || Before(a, b)
  }

  lemma {:induction false} BeforeIsTotal(a: Id, b: Id)
    ensures a == b || Before(a, b) || Before(b, a)
  {
    if a != "" && b != "" && a[0] == b[0] {
      BeforeIsTotal(a[1..], b[1..]);
      assert a == [a[0]] + a[1..] && b == [b[0]] + b[1..];
    }
  }

  lemma {:induction false} BeforeIsTransitive(a: Id, b: Id, c: Id)
    requires Before(a, b) && Before(b, c)
    ensures Before(a, c)
  {
    if a != "" && a[0] == b[0] && b[0] == c[0] {
      BeforeIsTransitive(a[1..], b[1..], c[1..]);
    }
  }

  lemma {:induction false} BeforeIsIrreflexive(a: Id)
    ensures !Before(a, a)
  {
    if a != "" {
      BeforeIsIrreflexive(a[1..]);
    }
  }

  lemma BeforeIsAsymmetric(a: Id, b: Id)
    requires Before(a, b)
    ensures !Before(b, a)
  {
    if Before(b, a) {
      BeforeIsTransitive(a, b, a);
      BeforeIsIrreflexive(a);
    }
  }

  /** The order of tuples and paths: segment by segment, a prefix first. */
  predicate KeyBefore(a: seq<string>, b: seq<string>) {
    if b == [] then false
    else if a == [] then true
    else Before(a[0], b[0]) || (a[0] == b[0] && KeyBefore(a[1..], b[1..]))
  }

  lemma {:induction false} PrefixIsBefore(s: seq<string>, x: seq<string>)
    requires s <= x && s != x
    ensures KeyBefore(s, x)
  {
    if s != [] {
      assert s == [s[0]] + s[1..] && x == [x[0]] + x[1..] && s[1..] <= x[1..];
      PrefixIsBefore(s[1..], x[1..]);
    }
  }

  /** Where two part ways decides. */
  lemma {:induction false} PartingIsBefore(s: seq<string>, a: string, b: string, x: seq<string>, y: seq<string>)
    requires s + [a] <= x && s + [b] <= y && Before(a, b)
    ensures KeyBefore(x, y)
    decreases |s|
  {
    if s == [] {
      assert x[0] == (s + [a])[0] && y[0] == (s + [b])[0];
    } else {
      assert x[0] == (s + [a])[0] && y[0] == (s + [b])[0];
      assert s[1..] + [a] == (s + [a])[1..] && s[1..] + [b] == (s + [b])[1..];
      PartingIsBefore(s[1..], a, b, x[1..], y[1..]);
    }
  }

  predicate PartsAt(a: Id, b: Id, i: int) {
    0 <= i < |a| && i < |b| && a[i] < b[i] && a[..i] == b[..i]
  }

  /** Where two strings first differ decides; a proper prefix comes first. */
  lemma {:induction false} BeforeMeans(a: Id, b: Id)
    ensures Before(a, b) <==> (a <= b && a != b) || exists i :: PartsAt(a, b, i)
  {
    hide PartsAt;
    if a == "" || b == "" {
      EmptyPartsNowhere(a, b);
    } else if a[0] == b[0] {
      BeforeMeans(a[1..], b[1..]);
      assert a == [a[0]] + a[1..] && b == [b[0]] + b[1..];
      forall i ensures PartsAt(a, b, i) <==> PartsAt(a[1..], b[1..], i - 1) {
        PartsLater(a, b, i);
      }
      if i :| PartsAt(a[1..], b[1..], i) {
        assert PartsAt(a, b, i + 1) <==> PartsAt(a[1..], b[1..], i + 1 - 1);
      }
    } else {
      forall i ensures PartsAt(a, b, i) <==> i == 0 && a[0] < b[0] {
        PartsAtOnce(a, b, i);
      }
      assert PartsAt(a, b, 0) <==> a[0] < b[0];
    }
  }

  lemma EmptyPartsNowhere(a: Id, b: Id)
    requires a == "" || b == ""
    ensures forall i :: !PartsAt(a, b, i)
  {
  }

  lemma PartsLater(a: Id, b: Id, i: int)
    requires a != "" && b != "" && a[0] == b[0]
    ensures PartsAt(a, b, i) <==> PartsAt(a[1..], b[1..], i - 1)
  {
    if 1 <= i <= |a| && i <= |b| {
      assert a[..i] == [a[0]] + a[1..][..i - 1] && b[..i] == [b[0]] + b[1..][..i - 1];
      assert a[1..][..i - 1] == a[..i][1..] && b[1..][..i - 1] == b[..i][1..];
    }
  }

  lemma PartsAtOnce(a: Id, b: Id, i: int)
    requires a != "" && b != "" && a[0] != b[0]
    ensures PartsAt(a, b, i) <==> i == 0 && a[0] < b[0]
  {
    if 0 < i <= |a| && i <= |b| {
      assert a[..i][0] == a[0] && b[..i][0] == b[0];
    }
  }

  lemma FirstDifferenceDecides(a: seq<string>, b: seq<string>)
    requires a != [] && b != []
    ensures KeyBefore(a, b) <==> if a[0] != b[0] then Before(a[0], b[0]) else KeyBefore(a[1..], b[1..])
  {
    BeforeIsIrreflexive(a[0]);
  }

  lemma {:induction false} KeyBeforeIsTotal(a: seq<string>, b: seq<string>)
    ensures a == b || KeyBefore(a, b) || KeyBefore(b, a)
  {
    if a != [] && b != [] {
      BeforeIsTotal(a[0], b[0]);
      if a[0] == b[0] {
        KeyBeforeIsTotal(a[1..], b[1..]);
        assert a == [a[0]] + a[1..] && b == [b[0]] + b[1..];
      }
    }
  }

  lemma {:induction false} KeyBeforeIsTransitive(a: seq<string>, b: seq<string>, c: seq<string>)
    requires KeyBefore(a, b) && KeyBefore(b, c)
    ensures KeyBefore(a, c)
  {
    if a != [] {
      if Before(a[0], b[0]) && Before(b[0], c[0]) {
        BeforeIsTransitive(a[0], b[0], c[0]);
      } else if a[0] == b[0] == c[0] {
        BeforeIsIrreflexive(a[0]);
        KeyBeforeIsTransitive(a[1..], b[1..], c[1..]);
      }
    }
  }

  lemma {:induction false} KeyBeforeIsIrreflexive(a: seq<string>)
    ensures !KeyBefore(a, a)
  {
    if a != [] {
      BeforeIsIrreflexive(a[0]);
      KeyBeforeIsIrreflexive(a[1..]);
    }
  }

  ghost predicate IsLeast(x: Id, s: set<Id>) {
    x in s && forall y :: y in s ==> AtMost(x, y)
  }

  lemma LeastIsUnique(x: Id, y: Id, s: set<Id>)
    requires IsLeast(x, s) && IsLeast(y, s)
    ensures x == y
  {
    if x != y {
      BeforeIsAsymmetric(x, y);
    }
  }

  lemma {:induction false} LeastExists(s: set<Id>)
    requires s != {}
    ensures exists x :: IsLeast(x, s)
    decreases s
  {
    var x :| x in s;
    if s == {x} {
      assert IsLeast(x, s);
    } else {
      var rest := s - {x};
      LeastExists(rest);
      var y :| IsLeast(y, rest);
      BeforeIsTotal(x, y);
      if AtMost(y, x) {
        assert IsLeast(y, s);
      } else {
        forall z | z in s ensures AtMost(x, z) {
          if z != x {
            assert AtMost(y, z);
            if z != y { BeforeIsTransitive(x, y, z); }
          }
        }
        assert IsLeast(x, s);
      }
    }
  }

  function Least(s: set<Id>): (x: Id)
    requires s != {}
    ensures IsLeast(x, s)
  {
    LeastExists(s);
    assert forall x, y | x in s && y in s && IsLeast(x, s) && IsLeast(y, s) :: x == y by {
      forall x, y | IsLeast(x, s) && IsLeast(y, s) ensures x == y { LeastIsUnique(x, y, s); }
    }
    var x :| x in s && forall y | y in s :: AtMost(x, y);
    x
  }

  ghost predicate Distinct<T(!new)>(xs: seq<T>) {
    forall i, j :: 0 <= i < j < |xs| ==> xs[i] != xs[j]
  }

  function Elements<T(==)>(xs: seq<T>): set<T> {
    set x | x in xs
  }

  /** `sorted(set)`. */
  function Sorted(s: set<Id>): (xs: seq<Id>)
    ensures forall x :: x in xs <==> x in s
    ensures |xs| == |s|
    ensures Distinct(xs)
    ensures forall i, j :: 0 <= i < j < |xs| ==> Before(xs[i], xs[j])
    decreases s
  {
    if s == {} then []
    else
      var x := Least(s);
      var rest := Sorted(s - {x});
      assert forall y :: y in rest ==> Before(x, y);
      [x] + rest
  }

  lemma ElementsOfDistinct<T(!new)>(xs: seq<T>)
    requires Distinct(xs)
    ensures |Elements(xs)| == |xs|
    decreases |xs|
  {
    if xs == [] {
      assert Elements(xs) == {};
    } else {
      var n := |xs| - 1;
      ElementsOfDistinct(xs[..n]);
      assert xs == xs[..n] + [xs[n]];
      assert Elements(xs) == Elements(xs[..n]) + {xs[n]};
      assert xs[n] !in Elements(xs[..n]);
    }
  }

  lemma DistinctConcat<T(!new)>(xs: seq<T>, ys: seq<T>)
    requires Distinct(xs) && Distinct(ys)
    requires forall x :: x in xs ==> x !in ys
    ensures Distinct(xs + ys)
    ensures Elements(xs + ys) == Elements(xs) + Elements(ys)
  {
    var zs := xs + ys;
    forall i, j | 0 <= i < j < |zs| ensures zs[i] != zs[j] {
      if i < |xs| <= j {
        assert zs[i] in xs && zs[j] in ys;
      }
    }
  }

  lemma EmptyDifference<T>(a: set<T>, b: set<T>)
    ensures a - b == {} <==> a <= b
  {
    assert forall x :: x in a ==> x in b || x in a - b;
  }

  lemma SplitSet<T>(a: set<T>, b: set<T>)
    requires a <= b
    ensures a + (b - a) == b
    ensures |b| == |a| + |b - a|
  {
    assert a + (b - a) == b;
  }

  /** `list.remove`, on a list without repetitions. */
  function Without<T(==,!new)>(xs: seq<T>, x: T): (r: seq<T>)
    ensures forall y :: y in r <==> y in xs && y != x
    ensures Distinct(xs) ==> Distinct(r)
  {
    if xs == [] then []
    else
      var n := |xs| - 1;
      var front := Without(xs[..n], x);
      assert xs == xs[..n] + [xs[n]];
      assert Distinct(xs) ==> Distinct(xs[..n]) && xs[n] !in xs[..n];
      if xs[n] == x then front else front + [xs[n]]
  }

  lemma WithoutKeepsLast<T(!new)>(xs: seq<T>, x: T)
    requires xs != [] && xs[|xs| - 1] != x
    ensures Without(xs, x) != [] && Without(xs, x)[|Without(xs, x)| - 1] == xs[|xs| - 1]
  {
  }
}
