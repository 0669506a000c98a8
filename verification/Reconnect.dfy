/**
 * The agent's outer loop: one session after another with a growing pause between them.
 * Durations are nanoseconds.
 */
module Reconnect {
  import opened Wrappers

  const MAX_BACKOFF: nat := 30_000_000_000

  /** How a session ended: the daemon closed the stream, or something failed. */
  datatype SessionEnd = Closed | Failed

  function Doubled(backoff: nat): nat {
    Min(backoff * 2, MAX_BACKOFF)
  }

  function Power(k: nat): (p: nat)
    ensures p >= 1
  {
    if k == 0 then 1 else 2 * Power(k - 1)
  }

  /** The pause once `k` pauses have been taken: `base` first, then doubled and capped. */
  function Pause(base: nat, k: nat): nat {
    if k == 0 then base else Min(base * Power(k), MAX_BACKOFF)
  }

  /** How the session ended never enters into the pauses. */
  method Run(base: nat, ends: seq<SessionEnd>) returns (pauses: seq<nat>)
    ensures |pauses| == |ends|
    ensures forall k :: 0 <= k < |ends| ==> pauses[k] == Pause(base, k)
    ensures forall j, k :: 1 <= j <= k < |ends| ==> pauses[j] <= pauses[k] <= MAX_BACKOFF
    ensures ends != [] ==> pauses[0] == base
    ensures forall k :: 1 <= k < |ends| ==>
      pauses[k] == if 2 * pauses[k - 1] < 30_000_000_000 then 2 * pauses[k - 1] else 30_000_000_000
  {
    var backoff := base;
    pauses := [];
    for i := 0 to |ends|
      invariant |pauses| == i && backoff == Pause(base, i)
      invariant forall k :: 0 <= k < i ==> pauses[k] == Pause(base, k)
    {
      pauses := pauses + [backoff];
      DoubledPause(base, i);
      backoff := Doubled(backoff);
    }
    forall k | 1 <= k < |ends| ensures pauses[k] == Doubled(pauses[k - 1]) {
      DoubledPause(base, k - 1);
    }
    forall j, k | 1 <= j <= k < |ends| ensures pauses[j] <= pauses[k] {
      PausesGrow(base, j, k);
    }
  }

  lemma DoubledPause(base: nat, k: nat)
    ensures Doubled(Pause(base, k)) == Pause(base, k + 1)
  {
    assert base * Power(k + 1) == base * Power(k) * 2;
  }

  lemma {:induction false} PausesGrow(base: nat, j: nat, k: nat)
    requires 1 <= j <= k
    ensures Pause(base, j) <= Pause(base, k)
  {
    if j < k {
      PausesGrow(base, j, k - 1);
      DoubledPause(base, k - 1);
    }
  }

  /** The pause as the loop's comment describes it: back to `base` on a clean close. */
  function Described(base: nat, ends: seq<SessionEnd>): nat {
    if ends == [] || Last(ends).Closed? then base else Doubled(Described(base, Front(ends)))
  }

  /** How many sessions failed since the last clean close. */
  function Streak(ends: seq<SessionEnd>): (n: nat)
    ensures n <= |ends|
  {
    if ends == [] || Last(ends).Closed? then 0 else Streak(Front(ends)) + 1
  }

  lemma {:induction false} DescribedByStreak(base: nat, ends: seq<SessionEnd>)
    ensures Described(base, ends) == Pause(base, Streak(ends))
  {
    if ends != [] && Last(ends).Failed? {
      DescribedByStreak(base, Front(ends));
      DoubledPause(base, Streak(Front(ends)));
    }
  }

  lemma {:induction false} PowerGrows(j: nat, k: nat)
    requires j < k
    ensures 2 * Power(j) <= Power(k)
  {
    if j + 1 < k {
      PowerGrows(j, k - 1);
    }
  }

  /** Two different pauses are equal only at zero or at the cap. */
  lemma EqualPauses(base: nat, j: nat, k: nat)
    requires j < k
    ensures Pause(base, j) == Pause(base, k) <==>
      base == 0 || (if j == 0 then base == MAX_BACKOFF else base * Power(j) >= MAX_BACKOFF)
  {
    PowerGrows(j, k);
    ScaleUp(base, Power(j), Power(k));
  }

  lemma ScaleUp(base: nat, p: nat, q: nat)
    requires p >= 1 && 2 * p <= q
    ensures 2 * (base * p) <= base * q && base <= base * p
  {
    assert base * (2 * p) <= base * q;
    assert base * 1 <= base * p;
  }

  /**
   * The comment beside the loop promises a reset on a clean close; the code has none. The
   * two agree exactly when no session closed cleanly, the base is zero, or the failures
   * since the last clean close have already brought the pause to the cap.
   */
  lemma ResetsOnlyByChance(base: nat, ends: seq<SessionEnd>)
    ensures Pause(base, |ends|) == Described(base, ends) <==>
      || Closed !in ends
      || base == 0
      || (if Streak(ends) == 0 then base == MAX_BACKOFF else base * Power(Streak(ends)) >= MAX_BACKOFF)
  {
    DescribedByStreak(base, ends);
    FullStreak(ends);
    if Streak(ends) < |ends| {
      EqualPauses(base, Streak(ends), |ends|);
    }
  }

  lemma {:induction false} FullStreak(ends: seq<SessionEnd>)
    ensures Streak(ends) == |ends| <==> Closed !in ends
  {
    if ends != [] {
      FullStreak(Front(ends));
      assert ends == Front(ends) + [Last(ends)];
    }
  }
}
