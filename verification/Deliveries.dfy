/**
 * A fan-out round reduced to what decides it: the descriptors of the monitors and the numbers of
 * the failing writes. Here it is settled who is served twice.
 */
module Deliveries {
  import opened Common

  function Dropped(fds: seq<nat>, k: nat): (r: seq<nat>)
    requires k < |fds|
    ensures |r| == |fds| - 1
  {
    fds[..k] + fds[k + 1..]
  }

  /**
   * The descriptors served from position `pos` of the list on, when `i` writes were made. A
   * failed write drops its descriptor and restarts at the head; the round stops when as many
   * writes were made as descriptors are left.
   */
  function Delivered(fds: seq<nat>, pos: nat, i: nat, fails: set<nat>): (r: seq<nat>)
    ensures forall x :: x in r ==> x in fds
    decreases |fds| - i
  {
    if pos >= |fds| || i >= |fds| then []
    else if i in fails then Delivered(Dropped(fds, pos), 0, i + 1, fails)
    else [fds[pos]] + Delivered(fds, pos + 1, i + 1, fails)
  }

  predicate Unique(fds: seq<nat>) {
    forall i, j :: 0 <= i < j < |fds| ==> fds[i] != fds[j]
  }

  /** `x` occurs at two places. */
  predicate Twice(d: seq<nat>, x: nat) {
    exists a, b :: 0 <= a < b < |d| && d[a] == d[b] == x
  }

  predicate AnyTwice(d: seq<nat>) {
    exists x :: x in d && Twice(d, x)
  }

  lemma TwiceCons(x: nat, d: seq<nat>, y: nat)
    ensures Twice([x] + d, y) <==> Twice(d, y) || (x == y && y in d)
  {
    var e := [x] + d;
    if Twice(e, y) {
      var a, b :| 0 <= a < b < |e| && e[a] == e[b] == y;
      if a == 0 {
        assert d[b - 1] == y;
      } else {
        assert d[a - 1] == d[b - 1] == y;
      }
    }
    if Twice(d, y) {
      var a, b :| 0 <= a < b < |d| && d[a] == d[b] == y;
      assert e[a + 1] == e[b + 1] == y;
    } else if x == y && y in d {
      var b :| 0 <= b < |d| && d[b] == y;
      assert e[0] == e[b + 1] == y;
    }
  }

  lemma TwiceSnoc(d: seq<nat>, x: nat, y: nat)
    ensures Twice(d + [x], y) <==> Twice(d, y) || (x == y && y in d)
  {
    var e := d + [x];
    if Twice(e, y) {
      var a, b :| 0 <= a < b < |e| && e[a] == e[b] == y;
      assert d[a] == y;
    }
    if Twice(d, y) {
      var a, b :| 0 <= a < b < |d| && d[a] == d[b] == y;
      assert e[a] == e[b] == y;
    } else if x == y && y in d {
      var a :| 0 <= a < |d| && d[a] == y;
      assert e[a] == e[|d|] == y;
    }
  }

  // ---- the first monitor -------------------------------------------------------------------

  predicate FirstFailure(bad: nat, fails: set<nat>) {
    bad in fails && forall j :: 0 <= j < bad ==> j !in fails
  }

  /** The first failing write comes after the first and before the last two, and the next one succeeds. */
  predicate RestartInTime(bad: nat, n: int, fails: set<nat>) {
    FirstFailure(bad, fails) && 0 < bad < n - 2 && bad + 1 !in fails
  }

  ghost predicate RestartsInTime(n: int, fails: set<nat>) {
    exists bad: nat :: RestartInTime(bad, n, fails)
  }

  lemma UniqueDropped(fds: seq<nat>, k: nat)
    requires Unique(fds) && k < |fds|
    ensures Unique(Dropped(fds, k)) && fds[k] !in Dropped(fds, k)
  {}

  /**
   * Behind its first write (`pos == i >= 1`, no failure so far) the first descriptor is served
   * again exactly when the first failure is followed by a success in time.
   */
  lemma {:induction false} FirstAgain(fds: seq<nat>, i: nat, fails: set<nat>)
    requires Unique(fds) && 0 < i <= |fds| && forall j :: 0 <= j < i ==> j !in fails
    ensures fds[0] in Delivered(fds, i, i, fails) <==> RestartsInTime(|fds|, fails)
    decreases |fds| - i
  {
    if i == |fds| {
    } else if i !in fails {
      FirstAgain(fds, i + 1, fails);
    } else {
      var rest := Dropped(fds, i);
      UniqueDropped(fds, i);
      assert forall bad: nat :: FirstFailure(bad, fails) ==> bad == i;
      if i + 1 < |rest| && i + 1 in fails {
        UniqueDropped(rest, 0);
        assert Delivered(rest, 0, i + 1, fails) == Delivered(Dropped(rest, 0), 0, i + 2, fails);
      } else if i + 1 < |rest| {
        assert RestartInTime(i, |fds|, fails);
        assert Delivered(rest, 0, i + 1, fails)[0] == fds[0];
      }
    }
  }

  /** Exactly when the first monitor is served twice in a round. */
  lemma FirstTwiceIff(fds: seq<nat>, fails: set<nat>)
    requires Unique(fds) && fds != []
    ensures Twice(Delivered(fds, 0, 0, fails), fds[0]) <==> RestartsInTime(|fds|, fails)
  {
    if 0 in fails {
      UniqueDropped(fds, 0);
    } else {
      FirstAgain(fds, 1, fails);
      TwiceCons(fds[0], Delivered(fds, 1, 1, fails), fds[0]);
    }
  }

  // ---- anybody -----------------------------------------------------------------------------

  /** The failing writes among the first `j`. */
  function Lost(fails: set<nat>, j: nat): nat {
    if j == 0 then 0 else Lost(fails, j - 1) + if j - 1 in fails then 1 else 0
  }

  function Failures(fails: set<nat>, j: nat): set<nat> {
    set x | x in fails && x < j
  }

  lemma {:induction false} LostCounts(fails: set<nat>, j: nat)
    ensures Lost(fails, j) == |Failures(fails, j)|
  {
    if j == 0 {
      assert Failures(fails, 0) == {};
    } else {
      LostCounts(fails, j - 1);
      if j - 1 in fails {
        assert Failures(fails, j) == Failures(fails, j - 1) + {j - 1};
      } else {
        assert Failures(fails, j) == Failures(fails, j - 1);
      }
    }
  }

  /** Write `j` succeeds behind `r` failures that follow `r` successes. */
  predicate Balanced(j: nat, r: nat, fails: set<nat>) {
    && 1 <= r && 2 * r <= j && j !in fails
    && (forall x :: j - r <= x < j ==> x in fails)
    && (forall x :: j - 2 * r <= x < j - r ==> x !in fails)
  }

  /** Such a write comes at `i` or later while the round of `n` monitors still goes on. */
  ghost predicate BalancedFrom(i: nat, n: int, fails: set<nat>) {
    exists j: nat, r: nat :: i <= j && j + Lost(fails, j) < n && Balanced(j, r, fails)
  }

  lemma {:induction false} LostGrows(fails: set<nat>, i: nat, j: nat)
    requires i <= j
    ensures Lost(fails, i) <= Lost(fails, j)
  {
    if i == j {
    } else {
      LostGrows(fails, i, j - 1);
    }
  }

  /** The `f` writes before write `i` failed, the `q` writes before those succeeded, and no longer runs did. */
  predicate Runs(f: nat, q: nat, i: nat, fails: set<nat>) {
    && f + q <= i && (q == 0 ==> f == i)
    && (forall x :: i - f <= x < i ==> x in fails)
    && (forall x :: i - f - q <= x < i - f ==> x !in fails)
    && (f + q < i ==> i - f - q - 1 in fails)
  }

  /** How many descriptors at the head of the list were served by the last run of successes. */
  function Head(f: nat, q: nat): nat {
    if f == 0 then q else if q < f then 0 else q - f + 1
  }

  /** A descriptor is repeated in `d`, or was served before. */
  predicate Repeats(d: seq<nat>, before: seq<nat>) {
    AnyTwice(d) || exists x :: x in d && x in before
  }

  lemma AnyTwiceCons(x: nat, d: seq<nat>)
    ensures AnyTwice([x] + d) <==> AnyTwice(d) || x in d
  {
    if AnyTwice([x] + d) {
      var y :| y in [x] + d && Twice([x] + d, y);
      TwiceCons(x, d, y);
    }
    if AnyTwice(d) {
      var y :| y in d && Twice(d, y);
      TwiceCons(x, d, y);
      assert y in [x] + d;
    } else if x in d {
      TwiceCons(x, d, x);
      assert x in [x] + d;
    }
  }

  /** Write `i` is balanced exactly when some descriptor of the last successes is still at the head. */
  lemma BalancedAt(f: nat, q: nat, i: nat, fails: set<nat>)
    requires Runs(f, q, i, fails) && i !in fails
    ensures (exists r: nat :: Balanced(i, r, fails)) <==> 1 <= f <= q
  {
    if 1 <= f <= q {
      assert Balanced(i, f, fails);
    } else {
      forall r: nat | Balanced(i, r, fails)
        ensures r == f
      {
        assert i - r - 1 !in fails;
        assert f < r ==> i - f - 1 in fails;
      }
    }
  }

  lemma BalancedFromStep(i: nat, n: nat, fails: set<nat>)
    ensures BalancedFrom(i, n, fails) <==>
            BalancedFrom(i + 1, n, fails) || (i + Lost(fails, i) < n && exists r: nat :: Balanced(i, r, fails))
  {}

  /** What is served from write `i` on, against the runs before it. */
  lemma {:induction false} RepeatsIff(fds: seq<nat>, f: nat, q: nat, i: nat, fails: set<nat>, n: nat)
    requires Unique(fds) && |fds| + Lost(fails, i) == n && Runs(f, q, i, fails) && Head(f, q) <= |fds|
    ensures Repeats(Delivered(fds, if f == 0 then q else 0, i, fails), fds[..Head(f, q)]) <==>
            BalancedFrom(i, n, fails)
    decreases |fds| - i, 1
  {
    if i >= |fds| {
      RoundOver(i, n, fails);
    } else {
      BalancedFromStep(i, n, fails);
      if i in fails {
        RepeatsPastFailure(fds, f, q, i, fails, n);
      } else {
        BalancedAt(f, q, i, fails);
        RepeatsPastSuccess(fds, f, q, i, fails, n);
      }
    }
  }

  lemma RoundOver(i: nat, n: nat, fails: set<nat>)
    requires n <= i + Lost(fails, i)
    ensures !BalancedFrom(i, n, fails)
  {
    forall j | i <= j
      ensures n <= j + Lost(fails, j)
    {
      LostGrows(fails, i, j);
    }
  }

  lemma RepeatsSame(d: seq<nat>, before: seq<nat>, after: seq<nat>)
    requires forall x :: x in d ==> (x in before <==> x in after)
    ensures Repeats(d, before) <==> Repeats(d, after)
  {}

  lemma RepeatsCons(x: nat, d: seq<nat>, before: seq<nat>)
    ensures Repeats([x] + d, before) <==> Repeats(d, before + [x]) || x in before
  {
    AnyTwiceCons(x, d);
    assert forall y :: y in [x] + d <==> y == x || y in d;
    assert forall y :: y in before + [x] <==> y == x || y in before;
  }

  lemma {:induction false} RepeatsPastFailure(fds: seq<nat>, f: nat, q: nat, i: nat, fails: set<nat>, n: nat)
    requires Unique(fds) && |fds| + Lost(fails, i) == n && Runs(f, q, i, fails) && Head(f, q) <= |fds|
    requires i < |fds| && i in fails
    ensures Repeats(Delivered(fds, if f == 0 then q else 0, i, fails), fds[..Head(f, q)]) <==>
            BalancedFrom(i + 1, n, fails)
    decreases |fds| - i, 0
  {
    var pos := if f == 0 then q else 0;
    var rest := Dropped(fds, pos);
    var d := Delivered(rest, 0, i + 1, fails);
    UniqueDropped(fds, pos);
    RunsFail(f, q, i, fails);
    RepeatsIff(rest, f + 1, q, i + 1, fails, n);
    forall x | x in d
      ensures x in rest[..Head(f + 1, q)] <==> x in fds[..Head(f, q)]
    {
      HeadAfterDrop(fds, f, q, x);
    }
    RepeatsSame(d, rest[..Head(f + 1, q)], fds[..Head(f, q)]);
  }

  lemma RunsFail(f: nat, q: nat, i: nat, fails: set<nat>)
    requires Runs(f, q, i, fails) && i in fails
    ensures Runs(f + 1, q, i + 1, fails)
  {}

  lemma RunsSucceed(f: nat, q: nat, i: nat, fails: set<nat>)
    requires Runs(f, q, i, fails) && i !in fails
    ensures Runs(0, if f == 0 then q + 1 else 1, i + 1, fails)
  {}

  lemma HeadAfterDrop(fds: seq<nat>, f: nat, q: nat, x: nat)
    requires Unique(fds) && Head(f, q) <= |fds| && (f == 0 ==> q < |fds|) && fds != []
    requires var pos := if f == 0 then q else 0; x in Dropped(fds, pos)
    ensures Head(f + 1, q) < |fds|
    ensures var pos := if f == 0 then q else 0;
            x in Dropped(fds, pos)[..Head(f + 1, q)] <==> x in fds[..Head(f, q)]
  {
    var pos := if f == 0 then q else 0;
    var rest, p, p1 := Dropped(fds, pos), Head(f, q), Head(f + 1, q);
    UniqueDropped(fds, pos);
    if f == 0 {
      assert rest[..p1] == fds[..p];
    } else if p > 0 {
      assert fds[..p] == [fds[0]] + rest[..p1];
    }
  }

  lemma {:induction false} RepeatsPastSuccess(fds: seq<nat>, f: nat, q: nat, i: nat, fails: set<nat>, n: nat)
    requires Unique(fds) && |fds| + Lost(fails, i) == n && Runs(f, q, i, fails) && Head(f, q) <= |fds|
    requires i < |fds| && i !in fails
    ensures Repeats(Delivered(fds, if f == 0 then q else 0, i, fails), fds[..Head(f, q)]) <==>
            BalancedFrom(i + 1, n, fails) || 1 <= f <= q
    decreases |fds| - i, 0
  {
    var pos := if f == 0 then q else 0;
    var d, p := Delivered(fds, pos + 1, i + 1, fails), Head(f, q);
    RepeatsCons(fds[pos], d, fds[..p]);
    RunsSucceed(f, q, i, fails);
    if f == 0 {
      RepeatsIff(fds, 0, q + 1, i + 1, fails, n);
      assert fds[..q + 1] == fds[..q] + [fds[q]];
    } else if f <= q {
      assert fds[0] in fds[..p];
    } else {
      RepeatsIff(fds, 0, 1, i + 1, fails, n);
      assert fds[..1] == fds[..0] + [fds[0]];
    }
  }

  /** Exactly when somebody is served twice in a round. */
  lemma AnyTwiceIff(fds: seq<nat>, fails: set<nat>)
    requires Unique(fds)
    ensures AnyTwice(Delivered(fds, 0, 0, fails)) <==> BalancedFrom(0, |fds|, fails)
  {
    RepeatsIff(fds, 0, 0, 0, fails, |fds|);
    assert fds[..0] == [];
  }
}
