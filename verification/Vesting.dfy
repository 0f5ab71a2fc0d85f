/**
 * The vesting previews: the exact curve of the create form, the rounded percentage shown on a
 * schedule card together with what the card offers to claim, and the per-second stream rate.
 * `vestingProgress` divides in floating point; here the quotient is the exact rational and
 * `Math.round` rounds halves up.
 */
module Vesting {
  import opened Arithmetic
  import opened BigInts
  import opened Schedules

  datatype Milestone = Milestone(pct: int, timestamp: int)

  datatype Schedule = Schedule(
    kind: Kind,
    totalAmount: int,
    startTime: int,
    duration: int,
    cliffDuration: int,
    lockupDuration: int,
    revoked: bool,
    paused: bool,
    pausedDuration: int,
    pausedAt: int,
    vestedAtRevoke: int,
    milestones: seq<Milestone>)

  // ----- The exact curve -----

  function EstimateClaimable(total: int, start: int, duration: int, cliff: int, kind: Kind, now: int): int {
    if now <= start || duration <= 0 then 0
    else
      var elapsed := now - start;
      match kind
      case Cliff => if elapsed >= cliff then total else 0
      case LinearWithCliff =>
        if elapsed < cliff then 0
        else if elapsed >= duration then total
        else
          var linearDuration := duration - cliff;
          if linearDuration <= 0 then 0 else TruncDiv(total * (elapsed - cliff), linearDuration)
      case _ =>
        if elapsed >= duration then total else TruncDiv(total * elapsed, duration)
  }

  /** A share of a non-negative total lies between nothing and all of it. */
  lemma ShareInRange(total: int, part: int, whole: int)
    requires total >= 0 && 0 <= part <= whole && whole > 0
    ensures 0 <= TruncDiv(total * part, whole) <= total
  {
    MulMonotone(part, whole, total);
    MulMonotone(0, part, total);
    assert total * whole == whole * total;
    QuotientAtMost(total * part, whole, total);
  }

  lemma Regroup(a: int, b: int, c: int)
    ensures (a * b) * c == a * (b * c) == (a * c) * b
  {
  }

  lemma ShareGap(total: int, part: int, whole: int, part': int, whole': int, q: int, q': int)
    requires total >= 0 && whole > 0 && whole' > 0 && part * whole' <= part' * whole
    requires whole * q <= total * part && total * part' < whole' * (q' + 1)
    ensures q <= q'
  {
    var both := whole * whole';
    MulMonotone(whole * q, total * part, whole');
    MulMonotone(part * whole', part' * whole, total);
    MulStrict(total * part', whole' * (q' + 1), whole);
    MulStrict(0, whole, whole');
    Regroup(whole, q, whole');
    Regroup(total, part, whole');
    Regroup(total, part', whole);
    Regroup(whole', q' + 1, whole);
    assert whole' * whole == both;
    CancelStrict(q, q' + 1, both);
  }

  /** Cross-multiplied shares compare like the shares. */
  lemma ShareMonotone(total: int, part: int, whole: int, part': int, whole': int)
    requires total >= 0 && 0 <= part && 0 <= part' && whole > 0 && whole' > 0
    requires part * whole' <= part' * whole
    ensures TruncDiv(total * part, whole) <= TruncDiv(total * part', whole')
  {
    var q, q' := total * part / whole, total * part' / whole';
    assert total * part >= 0 && total * part' >= 0;
    if q >= q' + 1 {
      ShareGap(total, part, whole, part', whole', q, q');
      assert false;
    }
  }

  /** Never negative and never more than the total, for every kind, cliff and time. */
  lemma ClaimableInRange(total: int, start: int, duration: int, cliff: int, kind: Kind, now: int)
    requires total >= 0
    ensures 0 <= EstimateClaimable(total, start, duration, cliff, kind, now) <= total
  {
    var elapsed := now - start;
    if 0 < elapsed < duration {
      if kind == LinearWithCliff && cliff <= elapsed {
        ShareInRange(total, elapsed - cliff, duration - cliff);
      } else {
        ShareInRange(total, elapsed, duration);
      }
    }
  }

  /** Nothing at the start or before it, and nothing ever without a duration. */
  lemma NothingBefore(total: int, start: int, duration: int, cliff: int, kind: Kind, now: int)
    requires now <= start || duration <= 0
    ensures EstimateClaimable(total, start, duration, cliff, kind, now) == 0
  {
  }

  /** The cliff kind is all or nothing, by the cliff alone. */
  lemma CliffIsAllOrNothing(total: int, start: int, duration: int, cliff: int, now: int)
    requires now > start && duration > 0
    ensures EstimateClaimable(total, start, duration, cliff, Cliff, now) == if now >= start + cliff then total else 0
  {
  }

  lemma ClaimableMonotone(total: int, start: int, duration: int, cliff: int, kind: Kind, now: int, later: int)
    requires total >= 0 && now <= later
    ensures EstimateClaimable(total, start, duration, cliff, kind, now)
         <= EstimateClaimable(total, start, duration, cliff, kind, later)
  {
    var e, e' := now - start, later - start;
    ClaimableInRange(total, start, duration, cliff, kind, now);
    ClaimableInRange(total, start, duration, cliff, kind, later);
    if 0 < e && e' < duration {
      if kind == LinearWithCliff {
        if cliff <= e {
          MulMonotone(e - cliff, e' - cliff, duration - cliff);
          ShareMonotone(total, e - cliff, duration - cliff, e' - cliff, duration - cliff);
        }
      } else {
        MulMonotone(e, e', duration);
        ShareMonotone(total, e, duration, e', duration);
      }
    }
  }

  /** From the end on everything is claimable, for the two linear kinds. */
  lemma ClaimableComplete(total: int, start: int, duration: int, cliff: int, kind: Kind, now: int)
    requires duration > 0 && cliff <= duration && start + duration <= now
    ensures EstimateClaimable(total, start, duration, cliff, kind, now) == total
  {
  }

  /** The cliff only ever holds back: never more than without it, never before it. */
  lemma CliffHoldsBack(total: int, start: int, duration: int, cliff: int, now: int)
    requires total >= 0 && cliff >= 0
    ensures EstimateClaimable(total, start, duration, cliff, LinearWithCliff, now)
         <= EstimateClaimable(total, start, duration, cliff, Linear, now)
    ensures EstimateClaimable(total, start, duration, cliff, LinearWithCliff, now)
         <= EstimateClaimable(total, start, duration, cliff, Cliff, now)
  {
    var e := now - start;
    ClaimableInRange(total, start, duration, cliff, LinearWithCliff, now);
    ClaimableInRange(total, start, duration, cliff, Linear, now);
    if 0 < e < duration && cliff <= e {
      MulMonotone(e, duration, cliff);
      assert (e - cliff) * duration <= e * (duration - cliff);
      ShareMonotone(total, e - cliff, duration - cliff, e, duration);
    }
  }

  /**
   * A linear schedule with a cliff is at all times the linear schedule of the rest of the period,
   * started at the cliff; with a cliff at or after the end it is the pure cliff schedule.
   */
  lemma CliffShiftsLinear(total: int, start: int, duration: int, cliff: int, now: int)
    requires cliff >= 0 && duration > 0
    ensures EstimateClaimable(total, start, duration, cliff, LinearWithCliff, now)
         == if cliff < duration then EstimateClaimable(total, start + cliff, duration - cliff, 0, Linear, now)
            else EstimateClaimable(total, start, duration, cliff, Cliff, now)
  {
    if cliff < duration && now == start + cliff {
      Decomposition(total * 0, duration - cliff, 0, 0);
    }
  }

  lemma NoCliffIsLinear(total: int, start: int, duration: int, now: int)
    ensures EstimateClaimable(total, start, duration, 0, LinearWithCliff, now)
         == EstimateClaimable(total, start, duration, 0, Linear, now)
  {
  }

  // ----- The percentage on the card -----

  /** `Math.round((part / whole) * 100)` on exact rationals. */
  function RoundPercent(part: int, whole: int): int
    requires whole > 0
  {
    (200 * part + whole) / (2 * whole)
  }

  function ReachedPct(milestones: seq<Milestone>, now: int): int {
    if milestones == [] then 0
    else
      var earlier, m := ReachedPct(milestones[..|milestones| - 1], now), milestones[|milestones| - 1];
      if now >= m.timestamp then earlier + m.pct else earlier
  }

  predicate HasMilestones(s: Schedule) {
    s.kind == Graded && s.milestones != []
  }

  function ActiveElapsed(s: Schedule, now: int): int {
    var activePause := if s.paused && s.pausedAt > 0 then Max(0, now - s.pausedAt) else 0;
    Max(0, now - s.startTime - s.pausedDuration - activePause)
  }

  function VestingProgress(s: Schedule, now: int): int {
    if s.revoked then
      if s.totalAmount <= 0 then 0 else Min(100, RoundPercent(s.vestedAtRevoke, s.totalAmount))
    else if HasMilestones(s) then Min(100, ReachedPct(s.milestones, now))
    else if now < s.startTime then 0
    else if s.duration <= 0 then 100
    else Min(100, RoundPercent(ActiveElapsed(s, now), s.duration))
  }

  /** What the contract guarantees of a stored schedule. */
  predicate Sound(s: Schedule) {
    s.totalAmount >= 0 && s.vestedAtRevoke >= 0 && forall i :: 0 <= i < |s.milestones| ==> s.milestones[i].pct >= 0
  }

  /** The percentage of milestones adds up over them, each counting from its own time on. */
  lemma {:induction false} ReachedAddsUp(milestones: seq<Milestone>, more: seq<Milestone>, m: Milestone, now: int)
    ensures ReachedPct(milestones + more, now) == ReachedPct(milestones, now) + ReachedPct(more, now)
    ensures ReachedPct([m], now) == if m.timestamp <= now then m.pct else 0
    decreases |more|
  {
    assert [m][..0] == [];
    if more == [] {
      assert milestones + more == milestones;
    } else {
      var last := |more| - 1;
      assert (milestones + more)[..|milestones| + last] == milestones + more[..last];
      ReachedAddsUp(milestones, more[..last], m, now);
    }
  }

  lemma {:induction false} ReachedMonotone(milestones: seq<Milestone>, now: int, later: int)
    requires now <= later && forall i :: 0 <= i < |milestones| ==> milestones[i].pct >= 0
    ensures 0 <= ReachedPct(milestones, now) <= ReachedPct(milestones, later)
  {
    if milestones != [] {
      ReachedMonotone(milestones[..|milestones| - 1], now, later);
    }
  }

  lemma RoundPercentMonotone(part: int, part': int, whole: int)
    requires 0 <= part <= part' && whole > 0
    ensures 0 <= RoundPercent(part, whole) <= RoundPercent(part', whole)
  {
    QuotientMonotone(200 * part + whole, 200 * part' + whole, 2 * whole);
    QuotientMonotone(0, 200 * part + whole, 2 * whole);
    QuotientAtMost(0, 2 * whole, 0);
  }

  /** In every state the percentage is within 0 and 100 and never goes back as time passes. */
  lemma ProgressMonotone(s: Schedule, now: int, later: int)
    requires Sound(s) && now <= later
    ensures 0 <= VestingProgress(s, now) <= VestingProgress(s, later) <= 100
  {
    if s.revoked {
      if s.totalAmount > 0 {
        RoundPercentMonotone(s.vestedAtRevoke, s.vestedAtRevoke, s.totalAmount);
      }
    } else if HasMilestones(s) {
      ReachedMonotone(s.milestones, now, later);
    } else if s.duration > 0 {
      RoundPercentMonotone(ActiveElapsed(s, now), ActiveElapsed(s, later), s.duration);
    }
  }

  /** A schedule without a duration is complete from its start on. */
  lemma InstantProgress(s: Schedule, now: int)
    requires !s.revoked && !HasMilestones(s) && s.duration <= 0
    ensures VestingProgress(s, now) == if now < s.startTime then 0 else 100
  {
  }

  /** The percentage stays from `now` on what it is. */
  ghost predicate Frozen(s: Schedule, now: int) {
    forall later :: now <= later ==> VestingProgress(s, later) == VestingProgress(s, now)
  }

  /** The milestones have reached 100 percent, or none that is still to come adds anything. */
  predicate MilestonesDone(milestones: seq<Milestone>, now: int) {
    || ReachedPct(milestones, now) >= 100
    || forall i :: 0 <= i < |milestones| ==> milestones[i].timestamp <= now || milestones[i].pct == 0
  }

  /** What a caller can check at `now`; before the start only a negative paused time breaks the second case. */
  predicate PauseHolds(s: Schedule, now: int) {
    || s.revoked
    || if HasMilestones(s) then MilestonesDone(s.milestones, now)
       else
         || now >= s.startTime
         || (s.duration > 0 && 200 * Max(0, s.pausedAt - s.startTime - s.pausedDuration) < s.duration)
  }

  lemma RoundPercentBounds(part: int, whole: int)
    requires whole > 0
    ensures 200 * part - whole < 2 * whole * RoundPercent(part, whole) <= 200 * part + whole
  {
  }

  lemma RoundPercentZero(part: int, whole: int)
    requires part >= 0 && whole > 0
    ensures RoundPercent(part, whole) >= 0
    ensures RoundPercent(part, whole) == 0 <==> 200 * part < whole
  {
    RoundPercentBounds(part, whole);
    RoundPercentMonotone(part, part, whole);
    if 200 * part < whole {
      Decomposition(200 * part + whole, 2 * whole, 0, 200 * part + whole);
    }
  }

  lemma {:induction false} NothingToCome(milestones: seq<Milestone>, now: int, later: int)
    requires forall i :: 0 <= i < |milestones| ==> milestones[i].timestamp <= now || milestones[i].pct == 0
    requires now <= later
    ensures ReachedPct(milestones, later) == ReachedPct(milestones, now)
  {
    if milestones != [] {
      NothingToCome(milestones[..|milestones| - 1], now, later);
    }
  }

  lemma {:induction false} MilestoneToCome(milestones: seq<Milestone>, i: nat, now: int)
    requires forall j :: 0 <= j < |milestones| ==> milestones[j].pct >= 0
    requires i < |milestones| && milestones[i].timestamp > now && milestones[i].pct > 0
    ensures ReachedPct(milestones, now) < ReachedPct(milestones, milestones[i].timestamp)
  {
    var last := |milestones| - 1;
    if i < last {
      MilestoneToCome(milestones[..last], i, now);
    } else {
      ReachedMonotone(milestones[..last], now, milestones[i].timestamp);
    }
  }

  lemma MilestonesFreeze(s: Schedule, now: int)
    requires Sound(s) && !s.revoked && HasMilestones(s)
    ensures Frozen(s, now) <==> MilestonesDone(s.milestones, now)
  {
    var m := s.milestones;
    if MilestonesDone(m, now) {
      forall later | now <= later
        ensures VestingProgress(s, later) == VestingProgress(s, now)
      {
        ReachedMonotone(m, now, later);
        if ReachedPct(m, now) < 100 {
          NothingToCome(m, now, later);
        }
      }
    } else {
      var i :| 0 <= i < |m| && m[i].timestamp > now && m[i].pct != 0;
      MilestoneToCome(m, i, now);
      assert VestingProgress(s, m[i].timestamp) > VestingProgress(s, now);
    }
  }

  /** Exactly when a pause freezes the percentage; without milestones it always does in a regular schedule. */
  lemma PauseFreezes(s: Schedule, now: int)
    requires Sound(s) && s.paused && 0 < s.pausedAt <= now
    ensures Frozen(s, now) <==> PauseHolds(s, now)
    ensures !HasMilestones(s) && s.pausedDuration >= 0 && s.duration > 0 ==> Frozen(s, now)
  {
    if s.revoked {
    } else if HasMilestones(s) {
      MilestonesFreeze(s, now);
    } else if now < s.startTime && s.duration > 0 {
      var active := Max(0, s.pausedAt - s.startTime - s.pausedDuration);
      RoundPercentZero(active, s.duration);
      assert VestingProgress(s, s.startTime) == Min(100, RoundPercent(active, s.duration));
    } else {
      assert VestingProgress(s, Max(now, s.startTime)) == VestingProgress(s, now) || now < s.startTime;
    }
  }

  /** Milestones do not see a pause: the percentage is that of the running schedule, and can grow. */
  lemma MilestonesIgnorePause(s: Schedule, now: int)
    requires HasMilestones(s)
    ensures VestingProgress(s, now) == VestingProgress(s.(paused := false), now)
    ensures Sound(s) && !s.revoked ==> (Frozen(s, now) <==> MilestonesDone(s.milestones, now))
    ensures exists paused, t, later :: HasMilestones(paused) && Sound(paused) && paused.paused && !paused.revoked
              && 0 < paused.pausedAt <= t <= later && VestingProgress(paused, t) < VestingProgress(paused, later)
  {
    if Sound(s) && !s.revoked {
      MilestonesFreeze(s, now);
    }
    var m := [Milestone(50, 20)];
    var paused := Schedule(Graded, 1, 0, 100, 0, 0, false, true, 0, 10, 0, m);
    assert m[..0] == [];
    assert VestingProgress(paused, 15) == 0 && VestingProgress(paused, 20) == 50;
  }

  /** Only graded schedules have milestones: all others run with time, whatever a record says. */
  lemma MilestonesAreGraded(s: Schedule, now: int)
    requires s.kind != Graded
    ensures VestingProgress(s, now) == VestingProgress(s.(milestones := []), now)
  {
  }

  /** After a revocation the card shows, at all times, the percentage nearest to what had vested. */
  lemma RevokedProgress(s: Schedule, now: int)
    requires s.revoked && 0 <= s.vestedAtRevoke <= s.totalAmount
    ensures var p, vested, total := VestingProgress(s, now), s.vestedAtRevoke, s.totalAmount;
            if total == 0 then p == 0 else 200 * vested - total < 2 * total * p <= 200 * vested + total
  {
    if s.totalAmount > 0 {
      RoundPercentBounds(s.vestedAtRevoke, s.totalAmount);
      RoundPercentMonotone(s.vestedAtRevoke, s.totalAmount, s.totalAmount);
      Decomposition(201 * s.totalAmount, 2 * s.totalAmount, 100, s.totalAmount);
    }
  }

  // ----- Claims over a run -----

  predicate InLockup(s: Schedule, now: int) {
    s.lockupDuration > 0 && now < s.startTime + s.lockupDuration
  }

  function CardVested(s: Schedule, now: int): int {
    TruncDiv(s.totalAmount * VestingProgress(s, now), 100)
  }

  function CardClaimable(s: Schedule, claimed: int, now: int): int {
    var vested := CardVested(s, now);
    if !InLockup(s, now) && vested > claimed then vested - claimed else 0
  }

  /** The offer with everything written out: nothing before a lockup ends, then whatever of the share is unclaimed. */
  lemma OfferIsShareLeft(s: Schedule, claimed: int, now: int)
    ensures s.lockupDuration > 0 && now < s.startTime + s.lockupDuration ==> CardClaimable(s, claimed, now) == 0
    ensures s.lockupDuration <= 0 || now >= s.startTime + s.lockupDuration ==>
              CardClaimable(s, claimed, now) == Max(0, CardVested(s, now) - claimed)
  {
  }

  /** Claim whatever the card offers, at each of the given times. */
  function ClaimAt(s: Schedule, claimed: int, times: seq<int>): int {
    if times == [] then claimed
    else
      var before := ClaimAt(s, claimed, times[..|times| - 1]);
      before + CardClaimable(s, before, times[|times| - 1])
  }

  predicate NonDecreasing(times: seq<int>) {
    forall i, j :: 0 <= i < j < |times| ==> times[i] <= times[j]
  }

  lemma CardVestedMonotone(s: Schedule, now: int, later: int)
    requires Sound(s) && now <= later
    ensures 0 <= CardVested(s, now) <= CardVested(s, later) <= s.totalAmount
  {
    ProgressMonotone(s, now, later);
    var p, p' := VestingProgress(s, now), VestingProgress(s, later);
    ShareInRange(s.totalAmount, p, 100);
    ShareInRange(s.totalAmount, p', 100);
    ShareMonotone(s.totalAmount, p, 100, p', 100);
  }

  /**
   * However often and whenever the beneficiary claims, what has been claimed in the end is what a
   * single claim at the last time would have taken, and it never exceeds the total.
   */
  lemma {:induction false} ClaimsAreTelescoping(s: Schedule, claimed: int, times: seq<int>)
    requires Sound(s) && 0 <= claimed <= s.totalAmount && times != [] && NonDecreasing(times)
    ensures var last := times[|times| - 1];
            ClaimAt(s, claimed, times) == (if InLockup(s, last) then claimed else Max(claimed, CardVested(s, last)))
    ensures ClaimAt(s, claimed, times) == ClaimAt(s, claimed, [times[|times| - 1]])
    ensures claimed <= ClaimAt(s, claimed, times) <= s.totalAmount
  {
    var earlier, last := times[..|times| - 1], times[|times| - 1];
    assert [last][..0] == [];
    CardVestedMonotone(s, last, last);
    if earlier != [] {
      ClaimsAreTelescoping(s, claimed, earlier);
      CardVestedMonotone(s, earlier[|earlier| - 1], last);
    }
  }

  // ----- Percentage against exact curve -----

  lemma QuotientBounds(a: int, m: int)
    requires m > 0 && a >= 0
    ensures m * TruncDiv(a, m) <= a < m * TruncDiv(a, m) + m
  {
  }

  lemma TrackAlgebra(t: int, d: int, e: int, p: int, card: int, exact: int)
    requires t >= 0 && d > 0
    requires 200 * e - d < 2 * d * p <= 200 * e + d
    requires 100 * card <= t * p < 100 * card + 100
    requires d * exact <= t * e < d * exact + d
    ensures -200 - t < 200 * (card - exact) < 200 + t
  {
    MulMonotone(200 * e - d, 2 * d * p, t);
    MulMonotone(2 * d * p, 200 * e + d, t);
    assert t * (2 * d * p) == 2 * d * (t * p);
    assert t * (200 * e + d) == 200 * (t * e) + d * t;
    assert t * (200 * e - d) == 200 * (t * e) - d * t;
    MulMonotone(100 * card, t * p, 2 * d);
    MulStrict(t * p, 100 * card + 100, 2 * d);
    assert 2 * d * (100 * card) == d * (200 * card);
    assert 2 * d * (100 * card + 100) == d * (200 * card + 200);
    assert d * (200 * card) < d * (200 * exact + 200 + t) by {
      assert d * (200 * exact + 200 + t) == 200 * (d * exact + d) + d * t;
    }
    assert d * (200 * exact - t) < d * (200 * card + 200) by {
      assert d * (200 * exact - t) == 200 * (d * exact) - d * t;
    }
    CancelStrict(200 * card, 200 * exact + 200 + t, d);
    CancelStrict(200 * exact - t, 200 * card + 200, d);
  }

  /** The linear curve after the time that the schedule was not paused, which is what the card rounds. */
  function LinearVested(s: Schedule, now: int): int {
    EstimateClaimable(s.totalAmount, s.startTime, s.duration, 0, Linear, s.startTime + ActiveElapsed(s, now))
  }

  /** What has vested exactly: the curve of the schedule's own kind, with its cliff. */
  function ExactVested(s: Schedule, now: int): int {
    EstimateClaimable(s.totalAmount, s.startTime, s.duration, s.cliffDuration, s.kind,
                      s.startTime + ActiveElapsed(s, now))
  }

  /** A schedule whose percentage runs with time, paused or not. */
  predicate Running(s: Schedule) {
    !s.revoked && !HasMilestones(s) && s.pausedDuration >= 0 && s.totalAmount >= 0 && s.duration > 0
  }

  /** One of the three kinds that vest by time alone, with the cliff within the duration. */
  predicate Timed(s: Schedule) {
    Running(s) && s.kind != Graded && 0 <= s.cliffDuration <= s.duration
  }

  function CardPercent(e: int, d: int): int
    requires d > 0
  {
    Min(100, RoundPercent(e, d))
  }

  lemma CardPercentFacts(e: int, d: int)
    requires e >= 0 && d > 0
    ensures 0 <= CardPercent(e, d) <= 100
    ensures e <= d ==> CardPercent(e, d) == RoundPercent(e, d)
    ensures e >= d ==> CardPercent(e, d) == 100
  {
    RoundPercentMonotone(0, Min(e, d), d);
    RoundPercentMonotone(Min(e, d), d, d);
    RoundPercentMonotone(d, Max(e, d), d);
    Decomposition(201 * d, 2 * d, 100, d);
  }

  /** The card shows the rounded share of the duration, whatever the kind and the cliff. */
  lemma CardIsShare(s: Schedule, now: int)
    requires Running(s)
    ensures ActiveElapsed(s, now) >= 0
    ensures CardVested(s, now) == TruncDiv(s.totalAmount * CardPercent(ActiveElapsed(s, now), s.duration), 100)
  {
    RoundPercentZero(0, s.duration);
  }

  lemma LinearIsShare(s: Schedule, now: int)
    requires Running(s)
    ensures LinearVested(s, now) == TruncDiv(s.totalAmount * Min(ActiveElapsed(s, now), s.duration), s.duration)
  {
    Decomposition(s.totalAmount * s.duration, s.duration, s.totalAmount, 0);
    Decomposition(0, s.duration, 0, 0);
  }

  /**
   * At all times, for every kind and paused or not, the amount on the card stays within half a percent of the
   * total, plus one stroop, of the linear amount, on either side.
   */
  lemma CardTracksLinear(s: Schedule, now: int)
    requires Running(s)
    ensures -200 - s.totalAmount < 200 * (CardVested(s, now) - LinearVested(s, now)) < 200 + s.totalAmount
  {
    var t, e, d := s.totalAmount, Min(ActiveElapsed(s, now), s.duration), s.duration;
    CardIsShare(s, now);
    LinearIsShare(s, now);
    CardPercentFacts(ActiveElapsed(s, now), d);
    CardPercentFacts(e, d);
    var p := CardPercent(e, d);
    RoundPercentBounds(e, d);
    MulMonotone(0, p, t);
    MulMonotone(0, e, t);
    QuotientBounds(t * p, 100);
    QuotientBounds(t * e, d);
    TrackAlgebra(t, d, e, p, TruncDiv(t * p, 100), TruncDiv(t * e, d));
  }

  // ----- When the card is safe -----

  /** The share of the total that has vested after `e` active seconds, as part and whole. */
  function ExactShare(kind: Kind, e: int, d: int, c: int): (int, int) {
    match kind
    case Cliff => (if e > 0 && e >= c then 1 else 0, 1)
    case LinearWithCliff => if e < c then (0, 1) else if e >= d then (1, 1) else (e - c, d - c)
    case _ => (Min(e, d), d)
  }

  lemma ExactIsShare(s: Schedule, now: int)
    requires Timed(s)
    ensures var (part, whole) := ExactShare(s.kind, ActiveElapsed(s, now), s.duration, s.cliffDuration);
            0 <= part <= whole && whole > 0 && ExactVested(s, now) == TruncDiv(s.totalAmount * part, whole)
  {
    LinearIsShare(s, now);
    if s.kind == LinearWithCliff && ActiveElapsed(s, now) == s.cliffDuration < s.duration {
      Decomposition(0, s.duration - s.cliffDuration, 0, 0);
    }
  }

  function Share(total: int, part: int, whole: int): int
    requires whole > 0
  {
    TruncDiv(total * part, whole)
  }

  lemma OverstateAlgebra(t: int, d: int, e: int, p: int, card: int, exact: int)
    requires d > 0 && t * (p * d - 100 * e) >= 100 * d
    requires t * p < 100 * card + 100 && d * exact <= t * e
    ensures card > exact
  {
    assert t * (p * d - 100 * e) == d * (t * p) - 100 * (t * e);
    MulStrict(t * p, 100 * card + 100, d);
    assert d * (100 * card + 100) == 100 * (d * card) + 100 * d;
    assert 100 * (d * exact) < 100 * (d * card);
    CancelStrict(exact, card, d);
  }

  lemma LargeTotalOverstates(t: int, p: int, part: int, whole: int)
    requires t >= 0 && p >= 0 && part >= 0 && whole > 0
    requires t * (p * whole - 100 * part) >= 100 * whole
    ensures Share(t, p, 100) > Share(t, part, whole)
  {
    MulMonotone(0, p, t);
    MulMonotone(0, part, t);
    QuotientBounds(t * p, 100);
    QuotientBounds(t * part, whole);
    OverstateAlgebra(t, whole, part, p, Share(t, p, 100), Share(t, part, whole));
  }

  /** One share is below another for every total exactly if it is as a fraction. */
  lemma SharesCompare(p: int, part: int, whole: int)
    requires p >= 0 && part >= 0 && whole > 0
    ensures (forall t: nat :: Share(t, p, 100) <= Share(t, part, whole)) <==> p * whole <= 100 * part
  {
    if p * whole <= 100 * part {
      forall t: nat
        ensures Share(t, p, 100) <= Share(t, part, whole)
      {
        ShareMonotone(t, p, 100, part, whole);
      }
    } else {
      var large: nat := 100 * whole;
      MulMonotone(1, p * whole - 100 * part, large);
      LargeTotalOverstates(large, p, part, whole);
      assert Share(large, p, 100) > Share(large, part, whole);
    }
  }

  /** The percentage after `e` of `d` seconds is rounded down, or there is nothing to round. */
  predicate RoundsDown(e: int, d: int)
    requires d > 0
  {
    e >= d || 2 * (100 * e % d) < d
  }

  lemma RoundingDirection(e: int, d: int)
    requires 0 <= e && d > 0
    ensures 2 * (100 * e % d) < d <==> RoundPercent(e, d) * d <= 100 * e
  {
    var q, r := 100 * e / d, 100 * e % d;
    assert 100 * e == d * q + r;
    if 2 * r < d {
      Decomposition(200 * e + d, 2 * d, q, 2 * r + d);
    } else {
      assert 2 * d * (q + 1) == 2 * (d * q) + 2 * d;
      Decomposition(200 * e + d, 2 * d, q + 1, 2 * r - d);
      assert (q + 1) * d == d * q + d;
    }
  }

  /**
   * When the card is safe after `e` active seconds. It knows no cliff: before one it must still show 0, and on the
   * way up from one the percentage must not be ahead of the steeper curve.
   */
  predicate CardSafeAt(kind: Kind, e: int, d: int, c: int)
    requires d > 0
  {
    match kind
    case Cliff => e >= c || 200 * e < d
    case LinearWithCliff => e >= d || if e < c then 200 * e < d else RoundPercent(e, d) * (d - c) <= 100 * (e - c)
    case _ => RoundsDown(e, d)
  }

  lemma SafeAsShares(kind: Kind, e: int, d: int, c: int)
    requires e >= 0 && d > 0 && 0 <= c <= d && kind != Graded
    ensures var (part, whole) := ExactShare(kind, e, d, c);
            CardSafeAt(kind, e, d, c) <==> CardPercent(e, d) * whole <= 100 * part
  {
    CardPercentFacts(e, d);
    RoundPercentZero(e, d);
    RoundingDirection(e, d);
  }

  /**
   * The card never shows more than has vested, whatever the total, exactly at the safe times. At any other
   * time it overstates every total that is large enough.
   */
  lemma CardIsSafe(s: Schedule, now: int)
    requires Timed(s)
    ensures (forall t: nat :: CardVested(s.(totalAmount := t), now) <= ExactVested(s.(totalAmount := t), now))
       <==> CardSafeAt(s.kind, ActiveElapsed(s, now), s.duration, s.cliffDuration)
    ensures var (part, whole) := ExactShare(s.kind, ActiveElapsed(s, now), s.duration, s.cliffDuration);
            var gap := CardPercent(ActiveElapsed(s, now), s.duration) * whole - 100 * part;
            s.totalAmount * gap >= 100 * whole ==> CardVested(s, now) > ExactVested(s, now)
  {
    var e, d := ActiveElapsed(s, now), s.duration;
    var (part, whole) := ExactShare(s.kind, e, d, s.cliffDuration);
    var p := CardPercent(e, d);
    ExactIsShare(s, now);
    CardPercentFacts(e, d);
    SafeAsShares(s.kind, e, d, s.cliffDuration);
    SharesCompare(p, part, whole);
    forall t: nat
      ensures CardVested(s.(totalAmount := t), now) == Share(t, p, 100)
      ensures ExactVested(s.(totalAmount := t), now) == Share(t, part, whole)
    {
      CardIsShare(s.(totalAmount := t), now);
      ExactIsShare(s.(totalAmount := t), now);
    }
    CardIsShare(s, now);
    if s.totalAmount * (p * whole - 100 * part) >= 100 * whole {
      LargeTotalOverstates(s.totalAmount, p, part, whole);
    }
  }

  /**
   * What the card offers is covered by what has vested and is not claimed, in the lockup and at the safe
   * times only.
   */
  lemma OfferIsSafe(s: Schedule, now: int)
    requires Timed(s)
    ensures (forall t: nat, claimed: nat ::
               CardClaimable(s.(totalAmount := t), claimed, now)
                 <= Max(0, ExactVested(s.(totalAmount := t), now) - claimed))
       <==> InLockup(s, now) || CardSafeAt(s.kind, ActiveElapsed(s, now), s.duration, s.cliffDuration)
  {
    CardIsSafe(s, now);
    if !InLockup(s, now) && !CardSafeAt(s.kind, ActiveElapsed(s, now), s.duration, s.cliffDuration) {
      var t: nat :| CardVested(s.(totalAmount := t), now) > ExactVested(s.(totalAmount := t), now);
      ClaimableInRange(t, s.startTime, s.duration, s.cliffDuration, s.kind, s.startTime + ActiveElapsed(s, now));
      assert CardClaimable(s.(totalAmount := t), 0, now) > Max(0, ExactVested(s.(totalAmount := t), now) - 0);
    }
  }

  lemma BehindAlgebra(t: int, d: int, c: int, m: int, part: int, whole: int, exact: int)
    requires t >= 0 && 0 < whole <= d && 0 <= part && m - c <= part && t * part < whole * exact + whole
    ensures t * m <= t * c + d * exact + d
  {
    MulMonotone(m - c, part, t);
    MulMonotone(0, part, t);
    assert t * (m - c) == t * m - t * c;
    assert whole * (exact + 1) == whole * exact + whole;
    CancelStrict(0, exact + 1, whole);
    MulMonotone(whole, d, exact + 1);
    assert d * (exact + 1) == d * exact + d;
  }

  /** The exact share is behind the linear one by no more than the cliff's. */
  lemma ShareBehind(kind: Kind, e: int, d: int, c: int, t: int, exact: int)
    requires t >= 0 && e >= 0 && 0 <= c <= d && d > 0
    requires var (part, whole) := ExactShare(kind, e, d, c); whole * exact <= t * part < whole * exact + whole
    ensures t * Min(e, d) <= t * c + d * exact + d
  {
    var (part, whole) := ExactShare(kind, e, d, c);
    if part == 1 && whole == 1 {
      MulMonotone(Min(e, d), d, t);
      MulMonotone(0, c, t);
    } else {
      BehindAlgebra(t, d, c, Min(e, d), part, whole, exact);
    }
  }

  lemma ExcessAlgebra(t: int, d: int, c: int, e: int, p: int, card: int, exact: int)
    requires t >= 0 && d > 0
    requires 2 * d * p <= 200 * e + d && 100 * card <= t * p
    requires t * e <= t * c + d * exact + d
    ensures 200 * d * (card - exact) <= 200 * (t * c) + (t + 200) * d
  {
    MulMonotone(2 * d * p, 200 * e + d, t);
    MulMonotone(100 * card, t * p, 2 * d);
    assert t * (2 * d * p) == 2 * d * (t * p);
    assert t * (200 * e + d) == 200 * (t * e) + t * d;
    assert 2 * d * (100 * card) == 200 * d * card;
    assert 200 * d * (card - exact) == 200 * d * card - 200 * (d * exact);
  }

  /** The card overstates by at most the cliff's share of the total, and half a percent plus one stroop for rounding. */
  lemma CardExcess(s: Schedule, now: int)
    requires Timed(s)
    ensures var t, d, c := s.totalAmount, s.duration, s.cliffDuration;
            200 * d * (CardVested(s, now) - ExactVested(s, now)) <= 200 * (t * c) + (t + 200) * d
  {
    var t, d, c, e := s.totalAmount, s.duration, s.cliffDuration, Min(ActiveElapsed(s, now), s.duration);
    var (part, whole) := ExactShare(s.kind, ActiveElapsed(s, now), d, c);
    CardIsShare(s, now);
    ExactIsShare(s, now);
    CardPercentFacts(ActiveElapsed(s, now), d);
    CardPercentFacts(e, d);
    RoundPercentBounds(e, d);
    var p, card, exact := CardPercent(e, d), CardVested(s, now), ExactVested(s, now);
    MulMonotone(0, p, t);
    MulMonotone(0, part, t);
    QuotientBounds(t * p, 100);
    QuotientBounds(t * part, whole);
    ShareBehind(s.kind, ActiveElapsed(s, now), d, c, t, exact);
    ExcessAlgebra(t, d, c, e, p, card, exact);
  }

  /** Rounding up half a percent is enough to overstate. */
  lemma CardCanOverstate()
    ensures exists s: Schedule, now ::
              s.kind == Linear && Timed(s) && Sound(s) && !s.paused && CardVested(s, now) > ExactVested(s, now)
  {
    var s := Schedule(Linear, 1000, 0, 1000, 0, 0, false, false, 0, 0, 0, []);
    assert CardVested(s, 5) == 10;
    assert ExactVested(s, 5) == 5;
  }

  /** A cliff is enough even where the percentage is exact: out of the lockup the card offers 600 of 200. */
  lemma CardIgnoresCliff(s: Schedule)
    requires s == Schedule(LinearWithCliff, 1000, 0, 1000, 500, 500, false, false, 0, 0, 0, [])
    ensures Timed(s) && Sound(s) && RoundsDown(600, 1000) && !InLockup(s, 600)
    ensures CardClaimable(s, 0, 600) == 600 && ExactVested(s, 600) == 200
  {
  }

  // ----- The per-second rate -----

  function StreamRatePerSec(s: Schedule): int {
    if s.revoked || s.paused || s.duration <= 0 then 0 else TruncDiv(s.totalAmount, s.duration)
  }

  /** A stream that was stopped has no rate. */
  lemma StoppedRate(s: Schedule)
    requires s.revoked || s.paused || s.duration <= 0
    ensures StreamRatePerSec(s) == 0
  {
  }

  function StreamBalance(s: Schedule, vested: int): int {
    var remaining := s.totalAmount - vested;
    if remaining > 0 then remaining else 0
  }

  /** What is vested and what is still in the stream make up the total. */
  lemma BalanceAndVested(s: Schedule, vested: int)
    ensures vested <= s.totalAmount ==> StreamBalance(s, vested) + vested == s.totalAmount
    ensures vested >= s.totalAmount ==> StreamBalance(s, vested) == 0
  {
  }

  function MaxEndTime(s: Schedule): int {
    s.startTime + s.duration + s.pausedDuration
  }

  predicate Flowing(s: Schedule) {
    !s.revoked && !s.paused && s.duration > 0 && s.totalAmount >= 0
  }

  lemma DriftAlgebra(t: int, d: int, e: int)
    requires t >= 0 && d > 0 && e >= 0
    ensures t * e >= 0 && t * e / d == t / d * e + t % d * e / d
  {
    var rate, r := t / d, t % d;
    var q, rest := r * e / d, r * e % d;
    assert t == d * rate + r && r * e == d * q + rest;
    assert (d * rate + r) * e == d * (rate * e) + r * e;
    assert d * (rate * e) + d * q == d * (rate * e + q);
    Decomposition(t * e, d, rate * e + q, rest);
    MulMonotone(0, t, e);
  }

  /** Exactly what a rate-driven counter misses after `e` seconds: the share of the remainder. */
  lemma RateDrift(s: Schedule, e: int)
    requires Flowing(s) && 0 <= e <= s.duration
    ensures EstimateClaimable(s.totalAmount, s.startTime, s.duration, 0, Linear, s.startTime + e)
         == StreamRatePerSec(s) * e + (s.totalAmount % s.duration) * e / s.duration
  {
    var t, d := s.totalAmount, s.duration;
    DriftAlgebra(t, d, e);
    if e == d {
      Decomposition(t * d, d, t, 0);
    } else if e == 0 {
      Decomposition(0, d, 0, 0);
    }
  }

  /** A counter driven by the rate never overstates, and lags less than one stroop per second. */
  lemma RateBounds(s: Schedule, e: int)
    requires Flowing(s) && 0 <= e <= s.duration
    ensures var exact := EstimateClaimable(s.totalAmount, s.startTime, s.duration, 0, Linear, s.startTime + e);
            StreamRatePerSec(s) * e <= exact <= StreamRatePerSec(s) * e + Max(0, e - 1)
  {
    var d, r := s.duration, s.totalAmount % s.duration;
    RateDrift(s, e);
    MulMonotone(0, r, e);
    if e > 0 {
      MulStrict(r, d, e);
      QuotientBelow(r * e, d, e);
    } else {
      Decomposition(0, d, 0, 0);
    }
  }

  /** The counter is exact all the way exactly when the duration divides the total. */
  lemma RateExact(s: Schedule)
    requires Flowing(s)
    ensures (forall e :: 0 <= e <= s.duration ==>
               EstimateClaimable(s.totalAmount, s.startTime, s.duration, 0, Linear, s.startTime + e)
                 == StreamRatePerSec(s) * e)
       <==> s.totalAmount % s.duration == 0
  {
    var d, r := s.duration, s.totalAmount % s.duration;
    RateDrift(s, d);
    Decomposition(r * d, d, r, 0);
    if r == 0 {
      forall e | 0 <= e <= d
        ensures EstimateClaimable(s.totalAmount, s.startTime, d, 0, Linear, s.startTime + e) == StreamRatePerSec(s) * e
      {
        RateDrift(s, e);
        Decomposition(r * e, d, 0, 0);
      }
    }
  }

  /** The clock of the schedule, which an active pause has stopped. */
  function StoppedClock(s: Schedule, now: int): int {
    if s.paused && s.pausedAt > 0 then Min(now, s.pausedAt) else now
  }

  /** The whole duration has been active exactly from the latest end time on, earlier pauses included. */
  lemma ActiveUntilMaxEnd(s: Schedule, now: int)
    requires s.duration > 0
    ensures ActiveElapsed(s, now) >= s.duration <==> StoppedClock(s, now) >= MaxEndTime(s)
  {
  }

  /**
   * A linear stream is exhausted exactly when it was empty or its latest end time, which past pauses
   * put off, has come before any pause that is still on.
   */
  lemma BalanceExhausted(s: Schedule, now: int)
    requires s.duration > 0 && s.totalAmount >= 0
    ensures StreamBalance(s, LinearVested(s, now)) == 0 <==> s.totalAmount == 0 || StoppedClock(s, now) >= MaxEndTime(s)
    ensures Flowing(s) ==> (StreamBalance(s, LinearVested(s, now)) == 0 <==> s.totalAmount == 0 || now >= MaxEndTime(s))
  {
    var t, d, e := s.totalAmount, s.duration, ActiveElapsed(s, now);
    ActiveUntilMaxEnd(s, now);
    if 0 < e < d && t > 0 {
      MulStrict(e, d, t);
      assert t * e < d * t;
      QuotientBelow(t * e, d, t);
    } else if 0 < e < d {
      assert t * e == 0;
    }
  }
}
