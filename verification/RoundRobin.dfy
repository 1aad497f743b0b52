/** The order in which a cursor that wraps around picks from `n` loops. */
module RoundRobin {
  /** The cursor after one pick. */
  function Advance(next: nat, n: nat): (r: nat)
    requires next < n
    ensures r < n
  {
    if next + 1 >= n then 0 else next + 1
  }

  function AdvanceBy(next: nat, n: nat, m: nat): (r: nat)
    requires next < n
    ensures r < n
  {
    if m == 0 then next else Advance(AdvanceBy(next, n, m - 1), n)
  }

  /** The first `m` picks from cursor `next`. */
  function Picks(next: nat, n: nat, m: nat): (picks: seq<nat>)
    requires next < n
    ensures |picks| == m
  {
    if m == 0 then [] else Picks(next, n, m - 1) + [AdvanceBy(next, n, m - 1)]
  }

  function Count(picks: seq<nat>, j: nat): nat {
    if picks == [] then 0
    else Count(picks[..|picks| - 1], j) + if picks[|picks| - 1] == j then 1 else 0
  }

  lemma {:induction false} AdvanceWraps(next: nat, n: nat, m: nat)
    requires next < n && m <= n
    ensures AdvanceBy(next, n, m) == if next + m < n then next + m else next + m - n
  {
    if m > 0 {
      AdvanceWraps(next, n, m - 1);
    }
  }

  lemma {:induction false} AdvanceAdds(next: nat, n: nat, k: nat, m: nat)
    requires next < n
    ensures AdvanceBy(AdvanceBy(next, n, k), n, m) == AdvanceBy(next, n, k + m)
  {
    if m > 0 {
      AdvanceAdds(next, n, k, m - 1);
    }
  }

  lemma {:induction false} PicksSplit(next: nat, n: nat, k: nat, m: nat)
    requires next < n
    ensures Picks(next, n, k + m) == Picks(next, n, k) + Picks(AdvanceBy(next, n, k), n, m)
  {
    if m > 0 {
      PicksSplit(next, n, k, m - 1);
      AdvanceAdds(next, n, k, m - 1);
    }
  }

  lemma {:induction false} CountConcat(a: seq<nat>, b: seq<nat>, j: nat)
    ensures Count(a + b, j) == Count(a, j) + Count(b, j)
  {
    if b == [] {
      assert a + b == a;
    } else {
      assert (a + b)[..|a + b| - 1] == a + b[..|b| - 1];
      CountConcat(a, b[..|b| - 1], j);
    }
  }

  /** How many picks come before loop `j` is due. */
  function Distance(next: nat, n: nat, j: nat): nat
    requires next < n && j < n
  {
    if j >= next then j - next else j + n - next
  }

  lemma {:induction false} FirstRound(next: nat, n: nat, m: nat, j: nat)
    requires next < n && j < n && m <= n
    ensures Count(Picks(next, n, m), j) == if Distance(next, n, j) < m then 1 else 0
  {
    if m > 0 {
      FirstRound(next, n, m - 1, j);
      AdvanceWraps(next, n, m - 1);
      assert Picks(next, n, m)[..m - 1] == Picks(next, n, m - 1);
    }
  }

  /** Any `n` consecutive picks hit each loop exactly once. */
  lemma EveryRoundHitsEachOnce(next: nat, n: nat, m: nat, i: nat, j: nat)
    requires next < n && j < n && i + n <= m
    ensures Count(Picks(next, n, m)[i..i + n], j) == 1
  {
    var start := AdvanceBy(next, n, i);
    PicksSplit(next, n, i, m - i);
    PicksSplit(start, n, n, m - i - n);
    assert Picks(next, n, m)[i..i + n] == Picks(start, n, n);
    FirstRound(start, n, n, j);
  }

  lemma RoundAddsOne(next: nat, n: nat, m: nat, j: nat)
    requires next < n <= m && j < n
    ensures Count(Picks(next, n, m), j) == 1 + Count(Picks(next, n, m - n), j)
  {
    hide Picks, Count;
    PicksSplit(next, n, n, m - n);
    assert n + (m - n) == m && AdvanceBy(next, n, n) == next by { AdvanceWraps(next, n, n); }
    hide AdvanceBy;
    CountConcat(Picks(next, n, n), Picks(next, n, m - n), j);
    FirstRound(next, n, n, j);
  }

  /** `m` picks hit each loop floor(m / n) or ceil(m / n) times. */
  lemma {:induction false} PicksAreFair(next: nat, n: nat, m: nat, j: nat)
    requires next < n && j < n
    ensures m / n <= Count(Picks(next, n, m), j) <= (m + n - 1) / n
    decreases m
  {
    hide Picks, Count;
    if m < n {
      FirstRound(next, n, m, j);
      QuotientIs(m, n, 0, m);
      if m > 0 {
        QuotientIs(m + n - 1, n, 1, m - 1);
      }
    } else {
      PicksAreFair(next, n, m - n, j);
      RoundAddsOne(next, n, m, j);
      DivideStep(m, n);
      DivideStep(m + n - 1, n);
    }
  }

  lemma DivideStep(m: nat, n: nat)
    requires 0 < n <= m
    ensures m / n == (m - n) / n + 1
  {
    var q, r := (m - n) / n, (m - n) % n;
    assert m - n == n * q + r;
    assert n * (q + 1) == n * q + n;
    QuotientIs(m, n, q + 1, r);
  }

  lemma QuotientIs(m: nat, n: nat, q: nat, r: nat)
    requires 0 < n && m == n * q + r && r < n
    ensures m / n == q
  {
    var q', r' := m / n, m % n;
    assert m == n * q' + r' && 0 <= r' < n;
    assert n * (q' - q) == n * q' - n * q;
    SmallMultiple(n, q' - q);
  }

  lemma SmallMultiple(n: int, d: int)
    requires 0 < n && -n < n * d < n
    ensures d == 0
  {
  }

  // ---------- picking by hash code ----------

  /** `i` is the loop a hash code belongs to: what is left of it after whole rounds. */
  ghost predicate Belongs(hashCode: nat, n: nat, i: nat) {
    i < n && exists rounds: nat :: hashCode == n * rounds + i
  }

  /** Every hash code belongs to one loop, and two to the same one iff they differ by whole rounds. */
  lemma HashesShareALoopIff(a: nat, b: nat, n: nat, i: nat, j: nat)
    requires a <= b && Belongs(a, n, i) && Belongs(b, n, j)
    ensures i == j <==> exists rounds: nat :: b - a == n * rounds
  {
    var p: nat :| a == n * p + i;
    var q: nat :| b == n * q + j;
    assert n * (q - p) == n * q - n * p;
    if i == j {
      NotNegative(n, q - p);
      assert b - a == n * (q - p);
    }
    if exists rounds: nat :: b - a == n * rounds {
      var rounds: nat :| b - a == n * rounds;
      assert n * (rounds - (q - p)) == n * rounds - n * (q - p);
      SmallMultiple(n, rounds - (q - p));
    }
  }

  lemma NotNegative(n: nat, d: int)
    requires 0 < n && 0 <= n * d
    ensures 0 <= d
  {
  }

  lemma RemainderBelongs(hashCode: nat, n: nat)
    requires 0 < n
    ensures Belongs(hashCode, n, hashCode % n)
  {
    assert hashCode == n * (hashCode / n) + hashCode % n;
  }
}
