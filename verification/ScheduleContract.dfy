/**
 * A schedule as the contract stores it, with pausing, resuming, claiming and revoking over a running clock.
 * The arithmetic is that of `vested_at`, which saturates to the total where a product leaves `i128`. The
 * previews of the application are compared with it.
 */
module ScheduleContract {
  import opened Arithmetic
  import opened BigInts
  import opened ByteCodec
  import opened Schedules
  import opened Vesting

  /** A tranche of a graded schedule, in basis points, unlocked `offset` active seconds after the start. */
  datatype Grade = Grade(bps: int, offset: int)

  datatype Stored = Stored(
    kind: Kind,
    total: int,
    claimed: int,
    start: int,
    duration: int,
    cliff: int,
    lockup: int,
    revocable: bool,
    revoked: bool,
    vestedAtRevoke: int,
    paused: bool,
    pausedDuration: int,
    pausedAt: int,
    grades: seq<Grade>)

  // ----- What has vested -----

  function SatSub(a: int, b: int): int {
    Max(0, a - b)
  }

  function Elapsed(s: Stored, now: int): int {
    var e := SatSub(now - s.start, s.pausedDuration);
    if s.paused && s.pausedAt > 0 then SatSub(e, SatSub(now, s.pausedAt)) else e
  }

  /** `checked_mul`, `checked_div`, and the total where either fails. */
  function ScaledOr(total: int, part: int, whole: int): int {
    if whole <= 0 || !InI128(total * part) then total else TruncDiv(total * part, whole)
  }

  function ReachedBps(grades: seq<Grade>, e: int): int {
    if grades == [] then 0
    else
      var earlier, g := ReachedBps(grades[..|grades| - 1], e), grades[|grades| - 1];
      if e >= g.offset then earlier + g.bps else earlier
  }

  /** By kind, after `e` active seconds. */
  function VestedAfter(s: Stored, e: int): int {
    match s.kind
    case Cliff => if e >= s.cliff then s.total else 0
    case Linear => if e >= s.duration then s.total else ScaledOr(s.total, e, s.duration)
    case LinearWithCliff =>
      if e < s.cliff then 0
      else if e >= s.duration then s.total
      else ScaledOr(s.total, e - s.cliff, s.duration - s.cliff)
    case Graded => Min(ScaledOr(s.total, ReachedBps(s.grades, e), 10000), s.total)
  }

  function VestedAt(s: Stored, now: int): int {
    if s.revoked then s.vestedAtRevoke
    else if now < s.start then 0
    else VestedAfter(s, Elapsed(s, now))
  }

  function ClaimableAt(s: Stored, now: int): int {
    if now < s.start + s.lockup then 0 else Max(0, VestedAt(s, now) - s.claimed)
  }

  /** What the constructors guarantee of the terms, and the transitions keep. */
  predicate WellFormed(s: Stored) {
    && s.total > 0 && InI128(s.total) && s.start >= 0 && s.lockup >= 0
    && 0 <= s.cliff <= s.duration && s.pausedDuration >= 0
    && (forall i :: 0 <= i < |s.grades| ==> s.grades[i].bps >= 0)
    && 0 <= s.vestedAtRevoke <= s.total
  }

  lemma {:induction false} ReachedBpsMonotone(grades: seq<Grade>, e: int, later: int)
    requires e <= later && forall i :: 0 <= i < |grades| ==> grades[i].bps >= 0
    ensures 0 <= ReachedBps(grades, e) <= ReachedBps(grades, later)
  {
    if grades != [] {
      ReachedBpsMonotone(grades[..|grades| - 1], e, later);
    }
  }

  lemma ScaledInRange(total: int, part: int, whole: int)
    requires total >= 0 && 0 <= part <= whole
    ensures 0 <= ScaledOr(total, part, whole) <= total
  {
    if whole > 0 {
      ShareInRange(total, part, whole);
    }
  }

  lemma NotNegative(a: int, whole: int)
    requires a >= 0 && whole > 0
    ensures TruncDiv(a, whole) >= 0
  {
  }

  /** Saturation keeps the order: a product that overflows is followed by products that do. */
  lemma ScaledMonotone(total: int, part: int, part': int, whole: int)
    requires total >= 0 && 0 <= part <= part' && InI128(total)
    ensures 0 <= Min(ScaledOr(total, part, whole), total) <= Min(ScaledOr(total, part', whole), total)
  {
    MulMonotone(0, part, total);
    MulMonotone(part, part', total);
    if whole > 0 {
      MulMonotone(part, part', whole);
      ShareMonotone(total, part, whole, part', whole);
      QuotientBounds(total * part, whole);
      NotNegative(total * part, whole);
    }
  }

  lemma AtMostTotal(s: Stored, e: int)
    requires WellFormed(s) && e >= 0 && (s.kind == Linear || s.kind == LinearWithCliff)
    ensures 0 <= VestedAfter(s, e) <= s.total
  {
    if e < s.duration {
      if s.kind == Linear {
        ScaledInRange(s.total, e, s.duration);
      } else if s.cliff <= e {
        ScaledInRange(s.total, e - s.cliff, s.duration - s.cliff);
      }
    }
  }

  lemma VestedAfterMonotone(s: Stored, e: int, later: int)
    requires WellFormed(s) && 0 <= e <= later
    ensures 0 <= VestedAfter(s, e) <= VestedAfter(s, later) <= s.total
  {
    match s.kind
    case Cliff =>
    case Linear =>
      AtMostTotal(s, e);
      AtMostTotal(s, later);
      ScaledMonotone(s.total, e, later, s.duration);
    case LinearWithCliff =>
      AtMostTotal(s, e);
      AtMostTotal(s, later);
      if s.cliff <= e {
        ScaledMonotone(s.total, e - s.cliff, later - s.cliff, s.duration - s.cliff);
      }
    case Graded =>
      ReachedBpsMonotone(s.grades, e, later);
      ScaledMonotone(s.total, ReachedBps(s.grades, e), ReachedBps(s.grades, later), 10000);
  }

  /** Of one record, what has vested is within the total and never goes back. */
  lemma VestedMonotone(s: Stored, now: int, later: int)
    requires WellFormed(s) && now <= later
    ensures 0 <= VestedAt(s, now) <= VestedAt(s, later) <= s.total
  {
    VestedAfterMonotone(s, 0, Max(0, Elapsed(s, later)));
    if now >= s.start {
      VestedAfterMonotone(s, Elapsed(s, now), Elapsed(s, later));
    }
  }

  // ----- Transitions -----

  datatype Action = Pause | Resume | Claim | Revoke

  datatype Event = Event(action: Action, now: int)

  /** A schedule with what has been paid out of it. */
  datatype Account = Account(schedule: Stored, toBeneficiary: int, toGrantor: int)

  /** One call of the contract; where it panics or returns an error nothing changes. */
  function Apply(a: Account, event: Event): Account {
    var s, now := a.schedule, event.now;
    match event.action
    case Pause =>
      if s.paused || s.revoked then a else a.(schedule := s.(paused := true, pausedAt := now))
    case Resume =>
      if !s.paused then a
      else
        var pausedDuration := s.pausedDuration + SatSub(now, s.pausedAt);
        a.(schedule := s.(paused := false, pausedAt := 0, pausedDuration := pausedDuration))
    case Claim =>
      var amount := ClaimableAt(s, now);
      if amount <= 0 then a
      else Account(s.(claimed := s.claimed + amount), a.toBeneficiary + amount, a.toGrantor)
    case Revoke =>
      if !s.revocable || s.revoked then a
      else
        var vested := VestedAt(s, now);
        var release := Max(0, vested - s.claimed);
        Account(s.(revoked := true, vestedAtRevoke := vested, claimed := s.claimed + release),
                a.toBeneficiary + release, a.toGrantor + Max(0, s.total - vested))
  }

  function Run(s: Stored, events: seq<Event>): Account {
    if events == [] then Account(s, 0, 0)
    else Apply(Run(s, events[..|events| - 1]), events[|events| - 1])
  }

  /** As created, with nothing claimed, paused or revoked. */
  predicate Fresh(s: Stored) {
    && WellFormed(s) && s.claimed == 0
    && !s.revoked && s.vestedAtRevoke == 0
    && !s.paused && s.pausedDuration == 0 && s.pausedAt == 0
  }

  /** The ledger's clock is positive and does not go back. */
  predicate ClockRuns(events: seq<Event>) {
    && (forall i :: 0 <= i < |events| ==> events[i].now > 0)
    && forall i, j :: 0 <= i < j < |events| ==> events[i].now <= events[j].now
  }

  predicate Until(events: seq<Event>, time: int) {
    forall i :: 0 <= i < |events| ==> events[i].now <= time
  }

  /** The books at `time`: nobody is paid more than has vested, and a revocation settles everything. */
  predicate Balanced(a: Account, time: int) {
    var s := a.schedule;
    && WellFormed(s)
    && (if s.paused then 0 < s.pausedAt <= time else s.pausedAt == 0)
    && 0 <= s.claimed <= VestedAt(s, time)
    && a.toBeneficiary == s.claimed
    && (if s.revoked then s.claimed == s.vestedAtRevoke && a.toGrantor == s.total - s.claimed else a.toGrantor == 0)
  }

  /** No transition changes what has vested at the moment it happens. */
  lemma StepKeepsVested(a: Account, event: Event)
    requires a.schedule.paused ==> 0 < a.schedule.pausedAt <= event.now
    requires event.now > 0 && a.schedule.pausedDuration >= 0
    ensures VestedAt(Apply(a, event).schedule, event.now) == VestedAt(a.schedule, event.now)
  {
    var s, after, now := a.schedule, Apply(a, event).schedule, event.now;
    if now >= s.start {
      assert event.action != Revoke ==> Elapsed(after, now) == Elapsed(s, now);
    }
    assert event.action != Revoke ==> forall e :: VestedAfter(after, e) == VestedAfter(s, e);
  }

  lemma BalancedLater(a: Account, time: int, later: int)
    requires Balanced(a, time) && time <= later
    ensures Balanced(a, later)
  {
    VestedMonotone(a.schedule, time, later);
  }

  lemma SameVested(s: Stored, s': Stored, now: int)
    requires s.(claimed := s'.claimed) == s'
    ensures VestedAt(s, now) == VestedAt(s', now)
  {
    assert forall e :: VestedAfter(s, e) == VestedAfter(s', e);
  }

  lemma ClaimKeepsBalance(a: Account, now: int)
    requires Balanced(a, now)
    ensures Balanced(Apply(a, Event(Claim, now)), now)
  {
    var amount := ClaimableAt(a.schedule, now);
    if amount > 0 {
      var after := a.schedule.(claimed := a.schedule.claimed + amount);
      SameVested(a.schedule, after, now);
    }
  }

  lemma RevokeKeepsBalance(a: Account, now: int)
    requires Balanced(a, now)
    ensures Balanced(Apply(a, Event(Revoke, now)), now)
  {
    VestedMonotone(a.schedule, now, now);
  }

  lemma StepKeepsBalance(a: Account, event: Event)
    requires Balanced(a, event.now) && event.now > 0
    ensures Balanced(Apply(a, event), event.now)
  {
    match event.action
    case Pause => StepKeepsVested(a, event);
    case Resume => StepKeepsVested(a, event);
    case Claim => ClaimKeepsBalance(a, event.now);
    case Revoke => RevokeKeepsBalance(a, event.now);
  }

  lemma {:induction false} RunIsBalanced(s: Stored, events: seq<Event>, time: int)
    requires Fresh(s) && ClockRuns(events) && Until(events, time)
    ensures Balanced(Run(s, events), time)
  {
    if events == [] {
      VestedMonotone(s, time, time);
    } else {
      var last := events[|events| - 1];
      RunIsBalanced(s, events[..|events| - 1], last.now);
      StepKeepsBalance(Run(s, events[..|events| - 1]), last);
      BalancedLater(Run(s, events), last.now, time);
    }
  }

  lemma {:induction false} TermsStay(s: Stored, events: seq<Event>)
    ensures var after := Run(s, events).schedule;
            && after.total == s.total && after.start == s.start && after.lockup == s.lockup && after.kind == s.kind
            && after.duration == s.duration && after.cliff == s.cliff && after.grades == s.grades
  {
    if events != [] {
      TermsStay(s, events[..|events| - 1]);
    }
  }

  /**
   * Over every history of a schedule, what has been paid out never exceeds the total, is all of it after a
   * revocation, and what is still held covers what the beneficiary can claim at any later time.
   */
  lemma PaymentsAreCovered(s: Stored, events: seq<Event>, time: int)
    requires Fresh(s) && ClockRuns(events) && Until(events, time)
    ensures var a := Run(s, events);
            var held := s.total - a.toBeneficiary - a.toGrantor;
            && 0 <= a.toBeneficiary && 0 <= a.toGrantor
            && 0 <= ClaimableAt(a.schedule, time) <= held
            && (a.schedule.revoked ==> held == 0)
  {
    RunIsBalanced(s, events, time);
    TermsStay(s, events);
    VestedMonotone(Run(s, events).schedule, time, time);
  }

  lemma RunOneMore(s: Stored, events: seq<Event>, event: Event)
    ensures Run(s, events + [event]) == Apply(Run(s, events), event)
  {
    assert (events + [event])[..|events|] == events;
  }

  lemma VestedStep(a: Account, event: Event, later: int)
    requires Balanced(a, event.now) && 0 < event.now <= later
    ensures VestedAt(a.schedule, event.now) <= VestedAt(Apply(a, event).schedule, later)
  {
    StepKeepsBalance(a, event);
    StepKeepsVested(a, event);
    VestedMonotone(Apply(a, event).schedule, event.now, later);
  }

  /** The last event of `more`, and what comes before it. */
  lemma LastOfEvents(events: seq<Event>, more: seq<Event>)
    requires ClockRuns(events + more) && more != []
    ensures var earlier, last := more[..|more| - 1], more[|more| - 1];
            && events + more == (events + earlier) + [last]
            && ClockRuns(events + earlier) && Until(events + earlier, last.now) && Until(earlier, last.now)
            && last.now > 0
  {
    var all, n := events + more, |events + more| - 1;
    assert all[n] == more[|more| - 1] && all[..n] == events + more[..|more| - 1];
    forall i | 0 <= i < |more| - 1
      ensures more[i].now <= more[|more| - 1].now
    {
      assert all[|events| + i] == more[i];
    }
    assert forall i :: 0 <= i < n ==> all[..n][i] == all[i];
  }

  lemma LastOfRun(s: Stored, events: seq<Event>, more: seq<Event>)
    requires Fresh(s) && ClockRuns(events + more) && more != []
    ensures var earlier, last := more[..|more| - 1], more[|more| - 1];
            && ClockRuns(events + earlier) && Until(earlier, last.now) && last.now > 0
            && Balanced(Run(s, events + earlier), last.now)
            && Run(s, events + more) == Apply(Run(s, events + earlier), last)
  {
    var earlier, last := more[..|more| - 1], more[|more| - 1];
    LastOfEvents(events, more);
    RunIsBalanced(s, events + earlier, last.now);
    RunOneMore(s, events + earlier, last);
  }

  /**
   * Between two moments of a history, whatever is paused, resumed, claimed or revoked, what has vested
   * never goes back.
   */
  lemma {:induction false} VestedNeverGoesBack(s: Stored, events: seq<Event>, more: seq<Event>, time: int, later: int)
    requires Fresh(s) && ClockRuns(events + more) && Until(events, time) && Until(more, later) && time <= later
    requires forall i :: 0 <= i < |more| ==> time <= more[i].now
    ensures VestedAt(Run(s, events).schedule, time) <= VestedAt(Run(s, events + more).schedule, later)
    decreases |more|
  {
    if more == [] {
      assert events + more == events;
      RunIsBalanced(s, events, time);
      VestedMonotone(Run(s, events).schedule, time, later);
    } else {
      var earlier, last := more[..|more| - 1], more[|more| - 1];
      LastOfRun(s, events, more);
      VestedNeverGoesBack(s, events, earlier, time, last.now);
      VestedStep(Run(s, events + earlier), last, later);
    }
  }

  /** A schedule is revoked only if it is revocable, and revoking a revocable one settles it. */
  lemma {:induction false} RevokedWasRevocable(s: Stored, events: seq<Event>)
    requires !s.revoked
    ensures var after := Run(s, events).schedule; after.revocable == s.revocable && (after.revoked ==> s.revocable)
  {
    if events != [] {
      RevokedWasRevocable(s, events[..|events| - 1]);
    }
  }

  lemma RevokeSettles(a: Account, now: int)
    requires Balanced(a, now) && a.schedule.revocable && !a.schedule.revoked
    ensures var after := Apply(a, Event(Revoke, now));
            && after.schedule.revoked
            && after.toBeneficiary == VestedAt(a.schedule, now)
            && after.toGrantor == a.schedule.total - VestedAt(a.schedule, now)
  {
    VestedMonotone(a.schedule, now, now);
  }

  /** A schedule that has started and is neither paused nor revoked. */
  predicate Flows(a: Account, now: int) {
    Balanced(a, now) && !a.schedule.paused && !a.schedule.revoked && 0 < now && a.schedule.start <= now
  }

  lemma SameCurve(s: Stored, s': Stored)
    requires s'.kind == s.kind && s'.total == s.total && s'.duration == s.duration && s'.cliff == s.cliff
    requires s'.grades == s.grades
    ensures forall e :: VestedAfter(s', e) == VestedAfter(s, e)
  {
  }

  /** From the moment of a pause on nothing more vests. */
  lemma PauseStops(a: Account, pause: int, time: int)
    requires Flows(a, pause) && pause <= time
    ensures VestedAt(Apply(a, Event(Pause, pause)).schedule, time) == VestedAt(a.schedule, pause)
  {
    SameCurve(a.schedule, Apply(a, Event(Pause, pause)).schedule);
  }

  /** A pause that has been resumed puts everything off by exactly its length. */
  lemma PauseDelays(a: Account, pause: int, resume: int, time: int)
    requires Flows(a, pause) && pause <= resume <= time
    ensures var after := Apply(Apply(a, Event(Pause, pause)), Event(Resume, resume));
            VestedAt(after.schedule, time) == VestedAt(a.schedule, time - (resume - pause))
  {
    SameCurve(a.schedule, Apply(Apply(a, Event(Pause, pause)), Event(Resume, resume)).schedule);
  }

  /** Grades add up, each counting from its offset on. */
  lemma {:induction false} GradesAddUp(grades: seq<Grade>, more: seq<Grade>, g: Grade, e: int)
    ensures ReachedBps(grades + more, e) == ReachedBps(grades, e) + ReachedBps(more, e)
    ensures ReachedBps([g], e) == if g.offset <= e then g.bps else 0
    decreases |more|
  {
    assert [g][..0] == [];
    if more == [] {
      assert grades + more == grades;
    } else {
      var last := |more| - 1;
      assert (grades + more)[..|grades| + last] == grades + more[..last];
      GradesAddUp(grades, more[..last], g, e);
    }
  }

  /** A graded schedule gives the reached share of 10000 basis points, rounded down, and all of it for all of them. */
  lemma GradedIsShare(s: Stored, e: int)
    requires WellFormed(s) && s.kind == Graded && InI128(s.total * ReachedBps(s.grades, e))
    ensures var bps := ReachedBps(s.grades, e);
            if bps >= 10000 then VestedAfter(s, e) == s.total
            else 10000 * VestedAfter(s, e) <= s.total * bps < 10000 * VestedAfter(s, e) + 10000
  {
    var bps := ReachedBps(s.grades, e);
    ReachedBpsMonotone(s.grades, e, e);
    MulMonotone(0, bps, s.total);
    QuotientBounds(s.total * bps, 10000);
    if bps >= 10000 {
      MulMonotone(10000, bps, s.total);
    } else {
      MulMonotone(bps, 10000, s.total);
    }
  }

  // ----- Claims -----

  /** A claim after the lockup settles everything that has vested. */
  lemma ClaimSettles(a: Account, now: int)
    requires Balanced(a, now) && now > 0 && now >= a.schedule.start + a.schedule.lockup
    ensures Apply(a, Event(Claim, now)).toBeneficiary == VestedAt(a.schedule, now)
  {
  }

  function WithoutClaims(events: seq<Event>): seq<Event> {
    if events == [] then []
    else
      var earlier, last := WithoutClaims(events[..|events| - 1]), events[|events| - 1];
      if last.action == Claim then earlier else earlier + [last]
  }

  /** Two accounts whose schedules differ in what has been claimed only. */
  predicate SameButClaims(a: Account, b: Account) {
    a.schedule.(claimed := b.schedule.claimed) == b.schedule
  }

  lemma StepKeepsSame(a: Account, b: Account, event: Event)
    requires SameButClaims(a, b)
    ensures event.action != Claim ==> SameButClaims(Apply(a, event), Apply(b, event))
    ensures event.action == Claim ==> SameButClaims(Apply(a, event), b)
    ensures VestedAt(a.schedule, event.now) == VestedAt(b.schedule, event.now)
  {
    SameVested(a.schedule, b.schedule, event.now);
  }

  lemma {:induction false} ClaimsLeaveTheRest(s: Stored, events: seq<Event>)
    ensures SameButClaims(Run(s, events), Run(s, WithoutClaims(events)))
  {
    if events != [] {
      var earlier, last := events[..|events| - 1], events[|events| - 1];
      ClaimsLeaveTheRest(s, earlier);
      StepKeepsSame(Run(s, earlier), Run(s, WithoutClaims(earlier)), last);
      RunOneMore(s, WithoutClaims(earlier), last);
    }
  }

  lemma {:induction false} WithoutClaimsFacts(events: seq<Event>, time: int)
    requires ClockRuns(events) && Until(events, time)
    ensures ClockRuns(WithoutClaims(events)) && Until(WithoutClaims(events), time)
  {
    if events != [] {
      var last := events[|events| - 1];
      WithoutClaimsFacts(events[..|events| - 1], last.now);
    }
  }

  /** In the lockup no claim pays. */
  lemma {:induction false} LockedClaimsDoNothing(s: Stored, events: seq<Event>)
    requires forall i :: 0 <= i < |events| ==> events[i].now < s.start + s.lockup
    ensures Run(s, WithoutClaims(events)) == Run(s, events)
  {
    if events != [] {
      var earlier, last := events[..|events| - 1], events[|events| - 1];
      LockedClaimsDoNothing(s, earlier);
      TermsStay(s, earlier);
      RunOneMore(s, WithoutClaims(earlier), last);
    }
  }

  /**
   * However often the beneficiary claims, between whatever pauses, resumptions and revocation, after a claim at the
   * end the beneficiary has exactly what that one claim alone would have brought.
   */
  lemma ClaimsAreTelescoping(s: Stored, events: seq<Event>, now: int)
    requires Fresh(s) && ClockRuns(events) && Until(events, now) && now > 0
    ensures Run(s, events + [Event(Claim, now)]).toBeneficiary
         == Run(s, WithoutClaims(events) + [Event(Claim, now)]).toBeneficiary
  {
    var often, once := Run(s, events), Run(s, WithoutClaims(events));
    RunOneMore(s, events, Event(Claim, now));
    RunOneMore(s, WithoutClaims(events), Event(Claim, now));
    TermsStay(s, events);
    TermsStay(s, WithoutClaims(events));
    if now < s.start + s.lockup {
      LockedClaimsDoNothing(s, events);
    } else {
      WithoutClaimsFacts(events, now);
      RunIsBalanced(s, events, now);
      RunIsBalanced(s, WithoutClaims(events), now);
      ClaimSettles(often, now);
      ClaimSettles(once, now);
      ClaimsLeaveTheRest(s, events);
      SameVested(often.schedule, once.schedule, now);
    }
  }

  // ----- What the application shows -----

  /** The record as the application reads it; `milestones` is what an indexer makes of the grades. */
  function Shown(s: Stored, milestones: seq<Milestone>): Schedule {
    Schedule(s.kind, s.total, s.start, s.duration, s.cliff, s.lockup, s.revoked, s.paused, s.pausedDuration,
             s.pausedAt, s.vestedAtRevoke, milestones)
  }

  predicate NonNegativePct(milestones: seq<Milestone>) {
    forall i :: 0 <= i < |milestones| ==> milestones[i].pct >= 0
  }

  lemma StepKeepsProgress(a: Account, event: Event, milestones: seq<Milestone>)
    requires a.schedule.paused ==> 0 < a.schedule.pausedAt <= event.now
    requires event.now > 0 && event.action != Revoke
    ensures VestingProgress(Shown(Apply(a, event).schedule, milestones), event.now)
         == VestingProgress(Shown(a.schedule, milestones), event.now)
  {
  }

  lemma ProgressStep(a: Account, event: Event, later: int, milestones: seq<Milestone>)
    requires Balanced(a, event.now) && 0 < event.now <= later && event.action != Revoke && NonNegativePct(milestones)
    ensures VestingProgress(Shown(a.schedule, milestones), event.now)
         <= VestingProgress(Shown(Apply(a, event).schedule, milestones), later)
  {
    StepKeepsBalance(a, event);
    StepKeepsProgress(a, event, milestones);
    ProgressMonotone(Shown(Apply(a, event).schedule, milestones), event.now, later);
  }

  /** Between two moments of a history without a revocation the percentage never goes back. */
  lemma {:induction false} ProgressNeverGoesBack(s: Stored, events: seq<Event>, more: seq<Event>, time: int, later: int,
                                                 milestones: seq<Milestone>)
    requires Fresh(s) && ClockRuns(events + more) && Until(events, time) && Until(more, later) && time <= later
    requires forall i :: 0 <= i < |more| ==> time <= more[i].now && more[i].action != Revoke
    requires NonNegativePct(milestones)
    ensures VestingProgress(Shown(Run(s, events).schedule, milestones), time)
         <= VestingProgress(Shown(Run(s, events + more).schedule, milestones), later)
    decreases |more|
  {
    if more == [] {
      assert events + more == events;
      RunIsBalanced(s, events, time);
      ProgressMonotone(Shown(Run(s, events).schedule, milestones), time, later);
    } else {
      var earlier, last := more[..|more| - 1], more[|more| - 1];
      LastOfRun(s, events, more);
      ProgressNeverGoesBack(s, events, earlier, time, last.now, milestones);
      ProgressStep(Run(s, events + earlier), last, later, milestones);
    }
  }

  lemma RoundBelow(part: int, whole: int, percent: int)
    requires whole > 0 && 0 <= part && percent <= 100
    ensures Min(100, RoundPercent(part, whole)) < percent <==> 200 * part < whole * (2 * percent - 1)
  {
    var p := RoundPercent(part, whole);
    RoundPercentBounds(part, whole);
    if p < percent {
      MulMonotone(2 * p + 1, 2 * percent - 1, whole);
      assert whole * (2 * p + 1) == 2 * whole * p + whole;
    } else {
      MulMonotone(2 * percent - 1, 2 * p - 1, whole);
      assert whole * (2 * p - 1) == 2 * whole * p - whole;
    }
  }

  /**
   * A revocation replaces the percentage of time by that of what has vested, and moves it back exactly if what
   * has vested is more than half a percent of the total short of the percentage shown before.
   */
  lemma RevocationAndProgress(a: Account, now: int, milestones: seq<Milestone>)
    requires WellFormed(a.schedule) && a.schedule.revocable && !a.schedule.revoked && NonNegativePct(milestones)
    ensures var before := VestingProgress(Shown(a.schedule, milestones), now);
            var after := VestingProgress(Shown(Apply(a, Event(Revoke, now)).schedule, milestones), now);
            var vested, total := VestedAt(a.schedule, now), a.schedule.total;
            after < before <==> 200 * vested < total * (2 * before - 1)
  {
    var vested, total := VestedAt(a.schedule, now), a.schedule.total;
    var before := VestingProgress(Shown(a.schedule, milestones), now);
    VestedMonotone(a.schedule, now, now);
    ProgressMonotone(Shown(a.schedule, milestones), now, now);
    RoundPercentBounds(vested, total);
    RoundBelow(vested, total, before);
  }

  /** One stroop, revoked a second before the end: the card goes from 100 percent back to 0. */
  lemma RevocationCanGoBack(s: Stored)
    requires s == Stored(Linear, 1, 0, 0, 1000, 0, 0, true, false, 0, false, 0, 0, [])
    ensures Fresh(s) && VestingProgress(Shown(s, []), 999) == 100
    ensures VestingProgress(Shown(Run(s, [Event(Revoke, 999)]).schedule, []), 999) == 0
  {
    var event := Event(Revoke, 999);
    assert [event][..0] == [];
    assert VestedAt(s, 999) == 0;
  }

  /** Where the preview's exact curve and the contract's amount meet. */
  predicate Agree(s: Stored, now: int) {
    var e := Elapsed(s, now);
    || now < s.start
    || match s.kind
       case Cliff => s.cliff > 0 || e > 0
       case LinearWithCliff => e < s.cliff || e >= s.duration || InI128(s.total * (e - s.cliff))
       case _ => e >= s.duration || InI128(s.total * e)
  }

  lemma BelowTotal(total: int, part: int, whole: int)
    requires total > 0 && 0 <= part < whole
    ensures 0 <= TruncDiv(total * part, whole) < total
    ensures part == 0 ==> total * part == 0 && TruncDiv(total * part, whole) == 0
  {
    MulStrict(part, whole, total);
    MulMonotone(0, part, total);
    assert whole * total == total * whole;
    QuotientBelow(total * part, whole, total);
  }

  /**
   * The contract never gives less than the exact curve that the card is measured by, and gives the same except
   * where a product overflows and at the very start of a schedule whose cliff is 0; there it gives everything.
   */
  lemma CurveIsContract(s: Stored, now: int, milestones: seq<Milestone>)
    requires WellFormed(s) && Timed(Shown(s, milestones))
    ensures ExactVested(Shown(s, milestones), now) <= VestedAt(s, now)
    ensures ExactVested(Shown(s, milestones), now) == VestedAt(s, now) <==> Agree(s, now)
    ensures !Agree(s, now) ==> VestedAt(s, now) == s.total
  {
    var shown := Shown(s, milestones);
    var e, d, c := ActiveElapsed(shown, now), s.duration, s.cliff;
    VestedMonotone(s, now, now);
    if now >= s.start {
      assert e == Elapsed(s, now);
      if e < d {
        BelowTotal(s.total, e, d);
        if s.kind == LinearWithCliff && c <= e {
          BelowTotal(s.total, e - c, d - c);
        }
      }
    }
  }

  /** At the safe times the contract pays a claim of what the card offers in full. */
  lemma SafeOfferIsPaid(s: Stored, now: int, milestones: seq<Milestone>)
    requires WellFormed(s) && Timed(Shown(s, milestones)) && s.claimed >= 0
    requires CardSafeAt(s.kind, ActiveElapsed(Shown(s, milestones), now), s.duration, s.cliff)
    ensures CardClaimable(Shown(s, milestones), s.claimed, now) <= ClaimableAt(s, now)
  {
    var shown := Shown(s, milestones);
    CardIsSafe(shown, now);
    var total: nat := s.total;
    assert shown.(totalAmount := total) == shown;
    assert CardVested(shown.(totalAmount := total), now) <= ExactVested(shown.(totalAmount := total), now);
    CurveIsContract(s, now, milestones);
    if now < s.start + s.lockup && !InLockup(shown, now) {
      assert CardVested(shown, now) == 0;
    }
  }
}
