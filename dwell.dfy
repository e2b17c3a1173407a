/** The dwell loop of bot.py (stay_for_giveaway): sleep, read the clock,
    stop at the wall-clock cap, otherwise count consecutive checks on which
    the giveaway looks gone and stop after enough of them. */
module Dwell {
  import opened Policy
  import opened Screen

  /** What one pass of the loop observes: the time since the dwell began,
      read after the sleep; the screen is_giveaway_still_active looks at;
      and the time the loop reports if it stops on this pass. */
  datatype Poll = Poll(elapsed: Seconds, screen: Snapshot, finish: Seconds)

  /** The badge or the entries list is shown on the pass's screen. */
  predicate Active(p: Poll) { IsGiveawayStillActive(p.screen) }

  /** What stay_for_giveaway returns. */
  datatype Outcome = Outcome(wait: Seconds, capped: bool)

  predicate Reached(p: Poll, maxWait: int) { p.elapsed >= maxWait as real }

  /** The clock passes the cap within the observed passes, as it must:
      every pass sleeps at least eight seconds. */
  predicate Ends(polls: seq<Poll>, maxWait: int)
  {
    exists i | 0 <= i < |polls| :: Reached(polls[i], maxWait)
  }

  /** The number of consecutive passes, ending with pass `k`, on which the
      giveaway looked gone. */
  function GoneRun(polls: seq<Poll>, k: nat): (n: nat)
    requires k < |polls|
    ensures n <= k + 1
  {
    if Active(polls[k]) then 0 else 1 + (if k == 0 then 0 else GoneRun(polls, k - 1))
  }

  /** The loop stops on pass `k`: the cap is reached (tested first), or the
      giveaway looked gone on enough consecutive passes. */
  predicate ExitsAt(polls: seq<Poll>, k: nat, maxWait: int, endedChecks: int)
    requires k < |polls|
  {
    Reached(polls[k], maxWait) || (!Active(polls[k]) && GoneRun(polls, k) >= endedChecks)
  }

  /** The first pass at or after `i` on which the loop stops. */
  function ExitFrom(polls: seq<Poll>, i: nat, maxWait: int, endedChecks: int): (k: nat)
    requires exists j | i <= j < |polls| :: Reached(polls[j], maxWait)
    ensures i <= k < |polls| && ExitsAt(polls, k, maxWait, endedChecks)
    ensures forall j :: i <= j < k ==> !ExitsAt(polls, j, maxWait, endedChecks)
    decreases |polls| - i
  {
    if ExitsAt(polls, i, maxWait, endedChecks) then i
    else ExitFrom(polls, i + 1, maxWait, endedChecks)
  }

  function ExitIndex(limits: Limits, isPack: bool, polls: seq<Poll>): nat
    requires Ends(polls, MaxWait(limits, isPack))
  {
    ExitFrom(polls, 0, MaxWait(limits, isPack), EndedChecks(limits, isPack))
  }

  /** The outcome of a dwell: the time reported on the pass that stops the
      loop, capped exactly when that pass reached the cap. */
  function DwellOutcome(limits: Limits, isPack: bool, polls: seq<Poll>): Outcome
    requires Ends(polls, MaxWait(limits, isPack))
  {
    var k := ExitIndex(limits, isPack, polls);
    Outcome(polls[k].finish, Reached(polls[k], MaxWait(limits, isPack)))
  }

  /** stay_for_giveaway: the cap and the confirmation count depend on the
      classification; an active check resets the count of gone checks. */
  method StayForGiveaway(limits: Limits, isPack: bool, polls: seq<Poll>)
    returns (wait: Seconds, capped: bool)
    requires Ends(polls, MaxWait(limits, isPack))
    ensures Outcome(wait, capped) == DwellOutcome(limits, isPack, polls)
  {
    var maxWait := MaxWait(limits, isPack);
    var endedChecks := EndedChecks(limits, isPack);
    var goneCount := 0;
    capped := false;
    var i := 0;
    while true
      invariant 0 <= i < |polls|
      invariant exists j | i <= j < |polls| :: Reached(polls[j], maxWait)
      invariant forall j :: 0 <= j < i ==> !ExitsAt(polls, j, maxWait, endedChecks)
      invariant goneCount == if i == 0 then 0 else GoneRun(polls, i - 1)
      decreases |polls| - i
    {
      var elapsed := polls[i].elapsed;
      if elapsed >= maxWait as real {
        capped := true;
        break;
      }
      if IsGiveawayStillActive(polls[i].screen) {
        goneCount := 0;
      } else {
        goneCount := goneCount + 1;
        if goneCount >= endedChecks {
          break;
        }
      }
      i := i + 1;
    }
    wait := polls[i].finish;
    assert ExitsAt(polls, i, maxWait, endedChecks);
  }

  /** How many gone checks confirm the end: a configured count of zero or
      less still needs the one check that triggers the test. */
  function Threshold(endedChecks: int): nat
  {
    if endedChecks < 1 then 1 else endedChecks
  }

  lemma {:induction false} GoneRunMissed(polls: seq<Poll>, k: nat, j: int)
    requires k < |polls| && k - GoneRun(polls, k) < j <= k
    ensures !Active(polls[j])
  {
    if j < k {
      GoneRunMissed(polls, k - 1, j);
    }
  }

  lemma {:induction false} MissesCounted(polls: seq<Poll>, k: nat, n: nat)
    requires k < |polls| && n <= k + 1
    requires forall j :: k - n < j <= k ==> !Active(polls[j])
    ensures GoneRun(polls, k) >= n
  {
    if n > 0 && k > 0 {
      MissesCounted(polls, k - 1, n - 1);
    }
  }

  /** An uncapped dwell ends only after `ended_checks` consecutive checks
      (at least one) on which the giveaway looked gone, and every check
      before the last one was under the cap. */
  lemma ConfirmedEndNeedsMisses(limits: Limits, isPack: bool, polls: seq<Poll>)
    requires Ends(polls, MaxWait(limits, isPack))
    ensures forall j :: 0 <= j < ExitIndex(limits, isPack, polls) ==> !Reached(polls[j], MaxWait(limits, isPack))
    ensures !DwellOutcome(limits, isPack, polls).capped ==>
              Threshold(EndedChecks(limits, isPack)) <= ExitIndex(limits, isPack, polls) + 1
    ensures !DwellOutcome(limits, isPack, polls).capped ==>
              forall j :: ExitIndex(limits, isPack, polls) - Threshold(EndedChecks(limits, isPack)) < j <= ExitIndex(limits, isPack, polls) ==> !Active(polls[j])
  {
    var k := ExitIndex(limits, isPack, polls);
    forall j | 0 <= j < k ensures !Reached(polls[j], MaxWait(limits, isPack)) {
      assert !ExitsAt(polls, j, MaxWait(limits, isPack), EndedChecks(limits, isPack));
    }
    if !Reached(polls[k], MaxWait(limits, isPack)) {
      assert GoneRun(polls, k) >= Threshold(EndedChecks(limits, isPack));
      forall j | k - Threshold(EndedChecks(limits, isPack)) < j <= k
        ensures !Active(polls[j])
      {
        GoneRunMissed(polls, k, j);
      }
    }
  }

  /** Conversely, `ended_checks` consecutive gone checks always end the
      dwell: it stops on the last of them at the latest. */
  lemma MissesEndDwell(limits: Limits, isPack: bool, polls: seq<Poll>, j: nat)
    requires Ends(polls, MaxWait(limits, isPack))
    requires j < |polls| && Threshold(EndedChecks(limits, isPack)) <= j + 1
    requires forall i :: j - Threshold(EndedChecks(limits, isPack)) < i <= j ==> !Active(polls[i])
    ensures ExitIndex(limits, isPack, polls) <= j
  {
    MissesCounted(polls, j, Threshold(EndedChecks(limits, isPack)));
    assert ExitsAt(polls, j, MaxWait(limits, isPack), EndedChecks(limits, isPack));
  }

  /** With a clock that does not run backwards within a pass, a capped dwell
      reports at least the cap. */
  lemma CappedWaitReachesCap(limits: Limits, isPack: bool, polls: seq<Poll>)
    requires Ends(polls, MaxWait(limits, isPack))
    requires forall i :: 0 <= i < |polls| ==> polls[i].elapsed <= polls[i].finish
    ensures DwellOutcome(limits, isPack, polls).capped ==>
              DwellOutcome(limits, isPack, polls).wait >= MaxWait(limits, isPack) as real
  {
  }
}
