/** The password rate limiter as a timed state machine. */
module Limiter {
  import opened Words

  datatype Limiter = Limiter(failed: nat, blockedUntil: nat)

  const FRESH := Limiter(0, 0)

  /** How an attempt that is not refused comes out. */
  datatype Verdict = Unreadable | Match | Mismatch

  datatype Outcome = Refused(wait: nat) | Unevaluated | Accepted | Rejected

  datatype Step = Step(next: Limiter, outcome: Outcome)

  function Min(a: nat, b: nat): nat {
    if a < b then a else b
  }

  /** The block in milliseconds that follows the n-th wrong password. */
  function Delay(n: nat): nat {
    if n < 3 then 0 else 1000 * Pow2(Min(n - 3, 5))
  }

  /** A wrong password at `now`. Both counters saturate. */
  function Penalised(l: Limiter, now: nat): Limiter {
    var failed := Min(l.failed + 1, U32_MAX);
    Limiter(failed, if failed >= 3 then Min(now + Delay(failed), U64_MAX) else l.blockedUntil)
  }

  function Attempt(l: Limiter, now: nat, verdict: Verdict): Step {
    if now < l.blockedUntil then Step(l, Refused(l.blockedUntil - now))
    else
      match verdict
      case Unreadable => Step(l, Unevaluated)
      case Match => Step(FRESH, Accepted)
      case Mismatch => Step(Penalised(l, now), Rejected)
  }

  /* ----- Runs without a success ----- */

  datatype Try = Try(now: nat, verdict: Verdict)

  /** Attempts in the order of a clock that never goes back and stays clear of its end; none succeeds. */
  predicate Losing(tries: seq<Try>) {
    && (forall i, j | 0 <= i < j < |tries| :: tries[i].now <= tries[j].now)
    && (forall t <- tries :: t.now + 32000 <= U64_MAX && t.verdict != Match)
  }

  function StateAfter(tries: seq<Try>): Limiter {
    if tries == [] then FRESH
    else
      var last := tries[|tries| - 1];
      Attempt(StateAfter(tries[..|tries| - 1]), last.now, last.verdict).next
  }

  /** The limiter is where attempts without a success have brought it, in the order of a clock that now shows this. */
  ghost predicate Paced(l: Limiter, tries: seq<Try>, clock: nat) {
    && l == StateAfter(tries)
    && (forall t <- tries :: t.now <= clock && t.verdict != Match)
    && (forall i, j | 0 <= i < j < |tries| :: tries[i].now <= tries[j].now)
  }

  lemma PacedState(l: Limiter, tries: seq<Try>, clock: nat)
    requires Paced(l, tries, clock)
    ensures l == StateAfter(tries)
  {
  }

  lemma PacedFresh(clock: nat)
    ensures Paced(FRESH, [], clock)
  {
  }

  lemma PacedLater(l: Limiter, tries: seq<Try>, clock: nat, later: nat)
    requires Paced(l, tries, clock) && clock <= later
    ensures Paced(l, tries, later)
  {
    hide StateAfter;
  }

  lemma PacedOneMore(l: Limiter, tries: seq<Try>, t: Try)
    requires Paced(l, tries, t.now) && t.verdict != Match
    ensures Paced(Attempt(l, t.now, t.verdict).next, tries + [t], t.now)
  {
    hide Attempt;
    assert (tries + [t])[..|tries|] == tries;
  }

  function OutcomeOfLast(tries: seq<Try>): Outcome
    requires tries != []
  {
    var last := tries[|tries| - 1];
    Attempt(StateAfter(tries[..|tries| - 1]), last.now, last.verdict).outcome
  }

  /** The times at which a wrong password was evaluated. */
  function Rejections(tries: seq<Try>): seq<nat> {
    if tries == [] then []
    else
      var front := Rejections(tries[..|tries| - 1]);
      if OutcomeOfLast(tries).Rejected? then front + [tries[|tries| - 1].now] else front
  }

  lemma DelayBounds(n: nat)
    ensures Delay(n) <= 32000
    ensures n >= 8 ==> Delay(n) == 32000
    ensures 3 <= n <= 8 ==> Delay(n) == 1000 * Pow2(n - 3)
  {
    assert Pow2(5) == 32;
    if 3 <= n < 8 {
      assert Pow2(1) == 2 && Pow2(2) == 4 && Pow2(3) == 8 && Pow2(4) == 16;
    }
  }

  /** The wrong password after n others. */
  lemma PenaltyAfter(l: Limiter, n: nat, now: nat)
    requires l.failed == Min(n, U32_MAX) && now + 32000 <= U64_MAX && (n < 3 ==> l.blockedUntil == 0)
    ensures Penalised(l, now).failed == Min(n + 1, U32_MAX)
    ensures Penalised(l, now).blockedUntil == if n + 1 < 3 then 0 else now + Delay(n + 1)
  {
    hide Delay;
    DelayBounds(Min(n + 1, U32_MAX));
    DelayBounds(n + 1);
  }

  lemma LosingFront(tries: seq<Try>)
    requires Losing(tries) && tries != []
    ensures var last := tries[|tries| - 1];
            Losing(tries[..|tries| - 1]) && last.now + 32000 <= U64_MAX && last.verdict != Match
  {
    assert tries[|tries| - 1] in tries && forall t <- tries[..|tries| - 1] :: t in tries;
  }

  /** What the last attempt does to the state and to the rejections. */
  lemma StateUnfolds(tries: seq<Try>)
    ensures tries == [] ==> StateAfter(tries) == FRESH && Rejections(tries) == []
    ensures tries != [] ==>
              var front, last := tries[..|tries| - 1], tries[|tries| - 1];
              var step := Attempt(StateAfter(front), last.now, last.verdict);
              && StateAfter(tries) == step.next
              && Rejections(tries) == Rejections(front) + if step.outcome.Rejected? then [last.now] else []
  {
    hide Attempt;
  }

  /** The state always reflects the rejections so far, and the block ends a delay after the last of them. */
  lemma {:induction false} StateFollowsRejections(tries: seq<Try>)
    requires Losing(tries)
    ensures var l, times := StateAfter(tries), Rejections(tries);
            && l.failed == Min(|times|, U32_MAX)
            && (|times| < 3 ==> l.blockedUntil == 0)
            && (|times| >= 3 ==> l.blockedUntil == times[|times| - 1] + Delay(|times|))
  {
    hide Delay, Penalised, Losing, StateAfter, Rejections;
    StateUnfolds(tries);
    if tries != [] {
      var front, last := tries[..|tries| - 1], tries[|tries| - 1];
      LosingFront(tries);
      StateFollowsRejections(front);
      PenaltyAfter(StateAfter(front), |Rejections(front)|, last.now);
    }
  }

  lemma {:induction false} RejectionsAreTries(tries: seq<Try>, now: nat)
    requires forall t <- tries :: t.now <= now
    ensures forall time <- Rejections(tries) :: time <= now
  {
    if tries != [] {
      assert tries[|tries| - 1] in tries && forall t <- tries[..|tries| - 1] :: t in tries;
      RejectionsAreTries(tries[..|tries| - 1], now);
    }
  }

  /** Consecutive rejections are at least a delay apart. */
  lemma {:induction false} RejectionsApart(tries: seq<Try>, k: nat)
    requires Losing(tries) && 3 <= k < |Rejections(tries)|
    ensures Rejections(tries)[k] >= Rejections(tries)[k - 1] + Delay(k)
    decreases |tries|
  {
    hide Delay;
    var n := |tries| - 1;
    var front := tries[..n];
    assert forall t <- front :: t in tries;
    StateFollowsRejections(front);
    if k < |Rejections(front)| {
      RejectionsApart(front, k);
    }
  }

  /** The least time from the third wrong password to the n-th. */
  function LeastWait(n: nat): nat
    requires n >= 3
  {
    if n == 3 then 0 else LeastWait(n - 1) + Delay(n - 1)
  }

  /** Doubling waits up to the ninth, and then 32 seconds each. */
  lemma {:induction false} LeastWaitClosedForm(n: nat)
    requires n >= 3
    ensures n <= 9 ==> LeastWait(n) == 1000 * (Pow2(n - 3) - 1)
    ensures n >= 9 ==> LeastWait(n) == 63000 + 32000 * (n - 9)
  {
    hide Delay;
    if n > 3 {
      LeastWaitClosedForm(n - 1);
      DelayBounds(n - 1);
      assert Pow2(6) == 64 by {
        Pow2Adds(3, 3);
      }
    }
  }

  /**
   * Between resets the n-th evaluated wrong password comes at least `LeastWait(n)` after the third, however many
   * refused or unreadable attempts lie between.
   */
  lemma {:induction false} RateLimitBound(tries: seq<Try>, n: nat)
    requires Losing(tries) && 3 <= n <= |Rejections(tries)|
    ensures Rejections(tries)[n - 1] >= Rejections(tries)[2] + LeastWait(n)
    decreases n
  {
    hide Delay, Rejections;
    if n > 3 {
      RateLimitBound(tries, n - 1);
      RejectionsApart(tries, n - 1);
    }
  }

  /** A refusal leaves the limiter alone, and never asks for more than 32 seconds. */
  lemma RefusalsDoNotExtend(tries: seq<Try>, now: nat, verdict: Verdict)
    requires Losing(tries) && forall t <- tries :: t.now <= now
    ensures var step := Attempt(StateAfter(tries), now, verdict);
            step.outcome.Refused? ==> step.next == StateAfter(tries) && step.outcome.wait <= 32000
  {
    hide Delay;
    StateFollowsRejections(tries);
    RejectionsAreTries(tries, now);
    DelayBounds(|Rejections(tries)|);
  }

  /**
   * After a wrong password from the third on, exactly the attempts within the delay are refused, as long as the
   * clock is not so close to its end that the sum saturates; then some of them are let through.
   */
  lemma BlockIsExactIff(l: Limiter, now: nat, verdict: Verdict)
    requires l.failed >= 2 && now <= U64_MAX
    ensures var l' := Penalised(l, now);
            (forall later: nat | now <= later <= U64_MAX ::
               Attempt(l', later, verdict).outcome.Refused? <==> later < now + Delay(l'.failed))
            <==> now + Delay(l'.failed) <= U64_MAX
  {
    hide Delay;
    var l' := Penalised(l, now);
    DelayBounds(l'.failed);
    if now + Delay(l'.failed) > U64_MAX {
      assert !Attempt(l', U64_MAX, verdict).outcome.Refused?;
    }
  }

  /** After the wait that a refusal asks for an attempt is evaluated again, and not a moment earlier. */
  lemma RefusalWait(l: Limiter, now: nat, verdict: Verdict, pause: nat, again: Verdict)
    requires Attempt(l, now, verdict).outcome.Refused?
    ensures Attempt(l, now + pause, again).outcome.Refused? <==> pause < Attempt(l, now, verdict).outcome.wait
  {
  }
}
