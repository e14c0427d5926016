/**
 Counting tuples over a finite set: all of them, and those without a repetition.
 Both are built by extending shorter tuples, so one counting lemma serves both.
 */
module Tuples {

  ghost predicate Distinct<T>(t: seq<T>) {
    forall i, j :: 0 <= i < j < |t| ==> t[i] != t[j]
  }

  ghost predicate Over<T(!new)>(t: seq<T>, s: set<T>) {
    forall i :: 0 <= i < |t| ==> t[i] in s
  }

  function Elements<T>(t: seq<T>): set<T> {
    set x | x in t
  }

  /** Every tuple of `a` followed by one of the elements it may be followed by. */
  ghost function Extend<T>(a: set<seq<T>>, next: seq<T> -> set<T>): set<seq<T>> {
    set t, x | t in a && x in next(t) :: t + [x]
  }

  ghost function ExtendOne<T>(t: seq<T>, s: set<T>): set<seq<T>> {
    set x | x in s :: t + [x]
  }

  ghost function Any<T(!new)>(s: set<T>): seq<T> -> set<T> {
    t => s
  }

  ghost function Unused<T(!new)>(s: set<T>): seq<T> -> set<T> {
    t => s - Elements(t)
  }

  ghost function All<T(!new)>(s: set<T>, n: nat): (r: set<seq<T>>)
    ensures forall t :: t in r <==> |t| == n && Over(t, s)
  {
    if n == 0 then {[]}
    else
      var r := Extend(All(s, n - 1), Any(s));
      assert forall t | |t| == n && Over(t, s) :: t in r by {
        forall t | |t| == n && Over(t, s) ensures t in r {
          assert t == t[..n - 1] + [t[n - 1]];
          assert t[..n - 1] in All(s, n - 1);
        }
      }
      r
  }

  ghost function AllDistinct<T(!new)>(s: set<T>, n: nat): (r: set<seq<T>>)
    ensures forall t :: t in r <==> |t| == n && Over(t, s) && Distinct(t)
  {
    if n == 0 then {[]}
    else
      var r := Extend(AllDistinct(s, n - 1), Unused(s));
      assert forall t | |t| == n && Over(t, s) && Distinct(t) :: t in r by {
        forall t | |t| == n && Over(t, s) && Distinct(t) ensures t in r {
          assert t == t[..n - 1] + [t[n - 1]];
          assert t[..n - 1] in AllDistinct(s, n - 1);
        }
      }
      r
  }

  function Pow(b: nat, e: nat): (r: nat) {
    if e == 0 then 1 else b * Pow(b, e - 1)
  }

  /** d * (d - 1) * ... * (d - n + 1), which is 0 once n > d. */
  function Falling(d: nat, n: nat): nat {
    if n == 0 then 1 else Falling(d, n - 1) * (if n <= d then d - (n - 1) else 0)
  }

  lemma {:induction false} ExtendOneCard<T>(t: seq<T>, s: set<T>)
    ensures |ExtendOne(t, s)| == |s|
  {
    if s == {} {
      assert ExtendOne(t, s) == {};
    } else {
      var y :| y in s;
      ExtendOneCard(t, s - {y});
      assert forall x :: (t + [x])[|t|] == x;
      assert ExtendOne(t, s) == ExtendOne(t, s - {y}) + {t + [y]};
    }
  }

  lemma ExtendSplit<T>(a: set<seq<T>>, t: seq<T>, next: seq<T> -> set<T>)
    requires t in a
    ensures Extend(a, next) == Extend(a - {t}, next) + ExtendOne(t, next(t))
    ensures Extend(a - {t}, next) !! ExtendOne(t, next(t))
  {
    forall u | u in Extend(a - {t}, next) ensures u !in ExtendOne(t, next(t)) {
      assert forall v, x: T {:trigger v + [x]} :: (v + [x])[..|v + [x]| - 1] == v;
    }
  }

  lemma {:induction false} ExtendCard<T>(a: set<seq<T>>, next: seq<T> -> set<T>, m: nat)
    requires forall t :: t in a ==> |next(t)| == m
    ensures |Extend(a, next)| == |a| * m
  {
    if a == {} {
      assert Extend(a, next) == {};
    } else {
      var t :| t in a;
      var rest := a - {t};
      ExtendCard(rest, next, m);
      ExtendOneCard(t, next(t));
      assert |Extend(a, next)| == |Extend(rest, next)| + |ExtendOne(t, next(t))| by {
        ExtendSplit(a, t, next);
      }
      assert |rest| == |a| - 1;
      assert |a| * m == (|a| - 1) * m + m;
    }
  }

  lemma {:induction false} AllCard<T(!new)>(s: set<T>, n: nat)
    ensures |All(s, n)| == Pow(|s|, n)
  {
    if n > 0 {
      AllCard(s, n - 1);
      ExtendCard(All(s, n - 1), Any(s), |s|);
    }
  }

  lemma {:induction false} ElementsCard<T>(t: seq<T>)
    requires Distinct(t)
    ensures |Elements(t)| == |t|
  {
    if t != [] {
      var u, x := t[..|t| - 1], t[|t| - 1];
      ElementsCard(u);
      assert Elements(t) == Elements(u) + {x};
    }
  }

  lemma {:induction false} AllDistinctCard<T(!new)>(s: set<T>, n: nat)
    ensures |AllDistinct(s, n)| == Falling(|s|, n)
  {
    if n > 0 {
      AllDistinctCard(s, n - 1);
      if n <= |s| {
        forall t | t in AllDistinct(s, n - 1) ensures |s - Elements(t)| == |s| - (n - 1) {
          ElementsCard(t);
          assert Elements(t) <= s;
        }
        ExtendCard(AllDistinct(s, n - 1), Unused(s), |s| - (n - 1));
      } else {
        forall t | t in AllDistinct(s, n) ensures false {
          ElementsCard(t);
          SubsetCard(Elements(t), s);
        }
        assert AllDistinct(s, n) == {};
      }
    }
  }

  lemma {:induction false} SubsetCard<T>(a: set<T>, b: set<T>)
    requires a <= b
    ensures |a| <= |b|
  {
    assert b == a + (b - a);
  }
}
