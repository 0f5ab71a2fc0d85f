/**
 * Claims against a committed batch: `claim_schedule_slot` of the contract, for which the builder's roots, proofs
 * and deposit totals are produced, over whole histories and for any deposit.
 */
module BatchClaims {
  import opened ByteCodec
  import opened MerkleBatch
  import opened MerkleTree
  import opened Schedules
  import opened Wrappers

  const MAX_PROOF_DEPTH := 20

  datatype ClaimError =
    | ProofTooDeep
    | BatchExpired
    | AmountZero
    | DurationZero
    | DurationTooShort
    | CliffExceedsDuration
    | SlotAlreadyClaimed
    | InvalidProof
    | RemainingUnderflow

  /** `claimed` holds the leaves claimed so far in any batch, as the contract's storage does. */
  datatype BatchState = BatchState(root: Digest, remaining: int, claimed: set<Digest>, expiryLedger: int)

  datatype Call = Call(ledger: int, terms: Terms, proof: seq<Digest>)

  function Claim(h: Hash, st: BatchState, call: Call): Result<BatchState, ClaimError> {
    var t, leaf := call.terms, h(LeafPreimage(call.terms));
    if |call.proof| > MAX_PROOF_DEPTH then Err(ProofTooDeep)
    else if call.ledger >= st.expiryLedger then Err(BatchExpired)
    else if t.amount <= 0 then Err(AmountZero)
    else if t.duration == 0 then Err(DurationZero)
    else if t.duration < 60 then Err(DurationTooShort)
    else if t.cliff > t.duration then Err(CliffExceedsDuration)
    else if leaf in st.claimed then Err(SlotAlreadyClaimed)
    else if Fold(h, leaf, call.proof) != st.root then Err(InvalidProof)
    else if !InI128(st.remaining - t.amount) then Err(RemainingUnderflow)
    else Ok(st.(claimed := st.claimed + {leaf}, remaining := st.remaining - t.amount))
  }

  /** Each refusal has the reason that the contract documents for it. */
  lemma RefusalsAreDocumented(h: Hash, st: BatchState, call: Call, t: Terms, leaf: Digest)
    requires t == call.terms && leaf == h(LeafPreimage(t))
    ensures Claim(h, st, call) == Err(ProofTooDeep) <==> |call.proof| > 20
    ensures Claim(h, st, call) == Err(BatchExpired) ==> call.ledger >= st.expiryLedger
    ensures Claim(h, st, call) == Err(AmountZero) ==> t.amount <= 0
    ensures Claim(h, st, call) == Err(DurationZero) ==> t.duration == 0
    ensures Claim(h, st, call) == Err(DurationTooShort) ==> t.duration != 0 && t.duration < 60
    ensures Claim(h, st, call) == Err(CliffExceedsDuration) ==> t.cliff > t.duration
    ensures Claim(h, st, call) == Err(SlotAlreadyClaimed) ==> leaf in st.claimed
    ensures Claim(h, st, call) == Err(InvalidProof) ==> Fold(h, leaf, call.proof) != st.root
    ensures Claim(h, st, call) == Err(RemainingUnderflow) ==> !InI128(st.remaining - t.amount)
  {
  }

  /** And a claim for which none of these reasons holds is accepted, paid and marked. */
  lemma ClaimAcceptedExactly(h: Hash, st: BatchState, call: Call, t: Terms, leaf: Digest)
    requires t == call.terms && leaf == h(LeafPreimage(t))
    ensures Claim(h, st, call).Ok? <==>
              && |call.proof| <= 20 && call.ledger < st.expiryLedger
              && t.amount > 0 && t.duration >= 60 && t.cliff <= t.duration
              && leaf !in st.claimed && Fold(h, leaf, call.proof) == st.root && InI128(st.remaining - t.amount)
    ensures Claim(h, st, call).Ok? ==>
              Claim(h, st, call).value
                == BatchState(st.root, st.remaining - t.amount, st.claimed + {leaf}, st.expiryLedger)
  {
  }

  /** A claim on this batch, or one on another batch that succeeds and leaves its leaf marked. */
  datatype Event = Here(call: Call) | Elsewhere(leaf: Digest)

  /** `elsewhere` collects the leaves marked by claims on other batches. */
  datatype Run = Run(state: BatchState, accepted: seq<Terms>, elsewhere: set<Digest>)

  function AfterCall(h: Hash, before: Run, call: Call): Run {
    match Claim(h, before.state, call)
    case Ok(after) => Run(after, before.accepted + [call.terms], before.elsewhere)
    case Err(_) => before
  }

  /** The run after one more event. */
  function After(h: Hash, before: Run, event: Event): Run {
    match event
    case Here(call) => AfterCall(h, before, call)
    case Elsewhere(leaf) =>
      Run(before.state.(claimed := before.state.claimed + {leaf}), before.accepted, before.elsewhere + {leaf})
  }

  /** A whole history; a refused call leaves the state as it was. */
  function RunClaims(h: Hash, st: BatchState, events: seq<Event>): Run {
    if events == [] then Run(st, [], {})
    else After(h, RunClaims(h, st, events[..|events| - 1]), events[|events| - 1])
  }

  lemma RunOneMore(h: Hash, st: BatchState, events: seq<Event>, event: Event)
    ensures RunClaims(h, st, events + [event]) == After(h, RunClaims(h, st, events), event)
  {
    assert (events + [event])[..|events|] == events;
  }

  /** The arguments of a call have the contract's types. */
  ghost predicate InRangeEvent(event: Event) {
    event.Here? ==> InRange(event.call.terms)
  }

  // ----- Totals -----

  function TotalAmount(terms: seq<Terms>): int {
    if terms == [] then 0 else TotalAmount(terms[..|terms| - 1]) + terms[|terms| - 1].amount
  }

  ghost predicate Distinct<T(!new)>(s: seq<T>) {
    forall i, j :: 0 <= i < j < |s| ==> s[i] != s[j]
  }

  lemma {:induction false} TotalAmountRemove(terms: seq<Terms>, k: nat)
    requires k < |terms|
    ensures TotalAmount(terms) == TotalAmount(terms[..k] + terms[k + 1..]) + terms[k].amount
    decreases |terms|
  {
    var last := |terms| - 1;
    var without := terms[..k] + terms[k + 1..];
    if k == last {
      assert without == terms[..last];
    } else {
      TotalAmountRemove(terms[..last], k);
      assert without[..|without| - 1] == terms[..last][..k] + terms[..last][k + 1..];
    }
  }

  /** Deposit cover: distinct members of a pool of non-negative amounts cost at most the pool. */
  lemma {:induction false} DistinctMembersCost(members: seq<Terms>, pool: seq<Terms>)
    requires Distinct(members) && forall m :: m in members ==> m in pool
    requires forall t :: t in pool ==> t.amount >= 0
    ensures 0 <= TotalAmount(members) <= TotalAmount(pool)
    decreases |pool|
  {
    if members == [] {
      if pool != [] {
        assert pool[|pool| - 1] in pool;
        DistinctMembersCost([], pool[..|pool| - 1]);
      }
    } else {
      var last := |members| - 1;
      assert members[last] in pool;
      var k :| 0 <= k < |pool| && pool[k] == members[last];
      var others := pool[..k] + pool[k + 1..];
      forall m | m in members[..last]
        ensures m in others
      {
        assert m in pool && m != pool[k];
      }
      DistinctMembersCost(members[..last], others);
      TotalAmountRemove(pool, k);
    }
  }

  function CanonicalAll(slots: seq<Terms>): (r: seq<Terms>)
    ensures |r| == |slots|
  {
    seq(|slots|, i requires 0 <= i < |slots| => Canonical(slots[i]))
  }

  lemma TotalOneMore(terms: seq<Terms>, t: Terms)
    ensures TotalAmount(terms + [t]) == TotalAmount(terms) + t.amount
  {
    assert (terms + [t])[..|terms|] == terms;
  }

  lemma {:induction false} TotalNonNegative(slots: seq<Terms>)
    requires forall s :: s in slots ==> s.amount >= 0
    ensures TotalAmount(slots) >= 0
  {
    if slots != [] {
      assert slots[|slots| - 1] in slots;
      TotalNonNegative(slots[..|slots| - 1]);
    }
  }

  /** The builder's `totalStroops` is the total of the committed slots. */
  lemma {:induction false} TotalStroopsIsTotalAmount(decodeKey: KeyDecoder, rows: seq<ValidatedRow>)
    requires AllDecodable(decodeKey, rows)
    ensures TotalStroops(rows) == TotalAmount(RowsTerms(decodeKey, rows))
  {
    if rows != [] {
      var last := |rows| - 1;
      TotalStroopsIsTotalAmount(decodeKey, rows[..last]);
      assert RowsTerms(decodeKey, rows)[..last] == RowsTerms(decodeKey, rows[..last]);
    }
  }

  lemma CanonicalAmount(t: Terms)
    requires InI128(t.amount)
    ensures Canonical(t).amount == t.amount
  {
    SignedRoundTrip(t.amount, 16);
  }

  /** When the whole deposit is an `i128`, no single amount wraps in its leaf. */
  lemma {:induction false} CanonicalTotal(slots: seq<Terms>)
    requires forall s :: s in slots ==> s.amount >= 0
    requires InI128(TotalAmount(slots))
    ensures TotalAmount(CanonicalAll(slots)) == TotalAmount(slots) >= 0
    ensures forall t :: t in CanonicalAll(slots) ==> t.amount >= 0
  {
    if slots != [] {
      var earlier, last := slots[..|slots| - 1], slots[|slots| - 1];
      assert last in slots && forall s :: s in earlier ==> s in slots;
      TotalNonNegative(earlier);
      CanonicalTotal(earlier);
      CanonicalAmount(last);
      assert CanonicalAll(slots) == CanonicalAll(earlier) + [Canonical(last)];
      TotalOneMore(CanonicalAll(earlier), Canonical(last));
    }
  }

  lemma {:induction false} PrefixTotal(slots: seq<Terms>, k: nat)
    requires k <= |slots| && forall s :: s in slots ==> s.amount >= 0
    ensures 0 <= TotalAmount(slots[..k]) <= TotalAmount(slots)
  {
    TotalNonNegative(slots[..k]);
    if k == |slots| {
      assert slots[..k] == slots;
    } else {
      assert slots[|slots| - 1] in slots && slots[..|slots| - 1][..k] == slots[..k];
      PrefixTotal(slots[..|slots| - 1], k);
    }
  }

  // ----- What every history keeps -----

  /** A call's verification hashed a string that collides with one the builder hashed. */
  ghost predicate CallCollides(h: Hash, slots: seq<Terms>, call: Call) {
    Collides(h, VerifierPreimages(h, LeafPreimage(call.terms), call.proof), BuilderPreimages(h, Preimages(slots)))
  }

  ghost predicate RunCollides(h: Hash, slots: seq<Terms>, events: seq<Event>) {
    exists e :: e in events && e.Here? && CallCollides(h, slots, e.call)
  }

  /** An accepted proof shows that the contract's terms were committed, or a collision. */
  lemma ClaimSoundness(h: Hash, slots: seq<Terms>, t: Terms, proof: seq<Digest>)
    requires slots != [] && InRange(t)
    requires Fold(h, h(LeafPreimage(t)), proof) == Root(h, Leaves(h, Preimages(slots)))
    ensures t in CanonicalAll(slots)
         || Collides(h, VerifierPreimages(h, LeafPreimage(t), proof), BuilderPreimages(h, Preimages(slots)))
  {
    var pres := Preimages(slots);
    forall p | p in pres
      ensures IsLeafPreimage(p)
    {
      var i :| 0 <= i < |pres| && pres[i] == p;
      LeafPreimageShape(slots[i]);
    }
    LeafPreimageShape(t);
    Soundness(h, pres, LeafPreimage(t), proof);
    if LeafPreimage(t) in pres {
      var i :| 0 <= i < |pres| && pres[i] == LeafPreimage(t);
      LeafPreimageInjective(slots[i], t);
      CanonicalFacts(t);
      assert CanonicalAll(slots)[i] == t;
    }
  }

  ghost function LeafSet(h: Hash, terms: seq<Terms>): set<Digest> {
    set t | t in terms :: h(LeafPreimage(t))
  }

  ghost predicate DistinctLeaves(h: Hash, terms: seq<Terms>) {
    forall i, j :: 0 <= i < j < |terms| ==> h(LeafPreimage(terms[i])) != h(LeafPreimage(terms[j]))
  }

  lemma LeafSetOneMore(h: Hash, terms: seq<Terms>, t: Terms)
    ensures LeafSet(h, terms + [t]) == LeafSet(h, terms) + {h(LeafPreimage(t))}
  {
    assert forall s :: s in terms + [t] <==> s in terms || s == t;
  }

  lemma LeavesOneMore(h: Hash, terms: seq<Terms>, t: Terms)
    requires DistinctLeaves(h, terms) && h(LeafPreimage(t)) !in LeafSet(h, terms)
    ensures DistinctLeaves(h, terms + [t]) && t !in terms
  {
    forall i | 0 <= i < |terms|
      ensures h(LeafPreimage(terms[i])) != h(LeafPreimage(t))
    {
      assert terms[i] in terms;
      assert h(LeafPreimage(terms[i])) in LeafSet(h, terms);
    }
  }

  /** What every history keeps, whatever the hash function does. */
  ghost predicate Bookkept(h: Hash, st: BatchState, run: Run) {
    && run.state.root == st.root
    && run.state.expiryLedger == st.expiryLedger
    && run.state.remaining == st.remaining - TotalAmount(run.accepted)
    && run.state.claimed == st.claimed + LeafSet(h, run.accepted) + run.elsewhere
    && DistinctLeaves(h, run.accepted)
    && forall t :: t in run.accepted ==> h(LeafPreimage(t)) !in st.claimed
  }

  /** The part of a call's checks that does not depend on the batch or on earlier calls. */
  ghost predicate Passed(st: BatchState, call: Call) {
    && |call.proof| <= MAX_PROOF_DEPTH && call.ledger < st.expiryLedger
    && call.terms.amount > 0 && call.terms.duration >= 60 && call.terms.cliff <= call.terms.duration
  }

  /** What an accepted call has passed, and what it changes. */
  lemma AcceptedCall(h: Hash, st: BatchState, call: Call)
    requires Claim(h, st, call).Ok?
    ensures Passed(st, call) && h(LeafPreimage(call.terms)) !in st.claimed
    ensures Claim(h, st, call).value
         == st.(claimed := st.claimed + {h(LeafPreimage(call.terms))}, remaining := st.remaining - call.terms.amount)
  {
  }

  lemma BooksOneMore(h: Hash, st: BatchState, before: Run, t: Terms, leaf: Digest, after: BatchState)
    requires Bookkept(h, st, before) && leaf == h(LeafPreimage(t)) && leaf !in before.state.claimed
    requires after == before.state.(claimed := before.state.claimed + {leaf},
                                    remaining := before.state.remaining - t.amount)
    ensures Bookkept(h, st, Run(after, before.accepted + [t], before.elsewhere))
    ensures t !in before.accepted
  {
    TotalOneMore(before.accepted, t);
    LeafSetOneMore(h, before.accepted, t);
    LeavesOneMore(h, before.accepted, t);
    assert st.claimed + LeafSet(h, before.accepted) + before.elsewhere + {leaf}
        == st.claimed + (LeafSet(h, before.accepted) + {leaf}) + before.elsewhere;
  }

  lemma AcceptKeepsBooks(h: Hash, st: BatchState, before: Run, call: Call)
    requires Bookkept(h, st, before) && Claim(h, before.state, call).Ok?
    ensures Bookkept(h, st, AfterCall(h, before, call))
    ensures Passed(st, call) && AfterCall(h, before, call).accepted == before.accepted + [call.terms]
    ensures call.terms !in before.accepted
  {
    AcceptedCall(h, before.state, call);
    BooksOneMore(h, st, before, call.terms, h(LeafPreimage(call.terms)), Claim(h, before.state, call).value);
  }

  /** Every accepted slot was called for by a call that passed the checks. */
  ghost predicate CalledFor(st: BatchState, events: seq<Event>, accepted: seq<Terms>) {
    forall t :: t in accepted ==> exists e :: e in events && e.Here? && e.call.terms == t && Passed(st, e.call)
  }

  lemma CalledForOneMore(st: BatchState, earlier: seq<Event>, event: Event, before: seq<Terms>, after: seq<Terms>)
    requires CalledFor(st, earlier, before)
    requires after == before || (event.Here? && after == before + [event.call.terms] && Passed(st, event.call))
    ensures CalledFor(st, earlier + [event], after)
  {
    forall t | t in after
      ensures exists e :: e in earlier + [event] && e.Here? && e.call.terms == t && Passed(st, e.call)
    {
      if t in before {
        var e :| e in earlier && e.Here? && e.call.terms == t && Passed(st, e.call);
        assert e in earlier + [event];
      } else {
        assert event in earlier + [event];
      }
    }
  }

  lemma EventIsBookkept(h: Hash, st: BatchState, earlier: seq<Event>, event: Event, before: Run, after: Run)
    requires Bookkept(h, st, before) && CalledFor(st, earlier, before.accepted) && after == After(h, before, event)
    ensures Bookkept(h, st, after) && CalledFor(st, earlier + [event], after.accepted)
  {
    if event.Here? && Claim(h, before.state, event.call).Ok? {
      AcceptKeepsBooks(h, st, before, event.call);
    }
    CalledForOneMore(st, earlier, event, before.accepted, after.accepted);
  }

  /** Every history is bookkept, whatever was called. */
  lemma {:induction false} RunIsBookkept(h: Hash, st: BatchState, events: seq<Event>)
    ensures Bookkept(h, st, RunClaims(h, st, events))
    ensures CalledFor(st, events, RunClaims(h, st, events).accepted)
    decreases |events|
  {
    if events == [] {
      assert LeafSet(h, []) == {};
    } else {
      var event, earlier := events[|events| - 1], events[..|events| - 1];
      RunIsBookkept(h, st, earlier);
      EventIsBookkept(h, st, earlier, event, RunClaims(h, st, earlier), RunClaims(h, st, events));
      assert events == earlier + [event];
    }
  }

  /** And short of a hash collision: only committed slots are paid, each once. */
  ghost predicate RunInvariant(h: Hash, slots: seq<Terms>, st: BatchState, run: Run) {
    && Bookkept(h, st, run)
    && Distinct(run.accepted)
    && forall t :: t in run.accepted ==> t in CanonicalAll(slots)
  }

  lemma AcceptedIsCommitted(h: Hash, slots: seq<Terms>, st: BatchState, before: Run, event: Event)
    requires slots != [] && InRangeEvent(event) && st.root == Root(h, Leaves(h, Preimages(slots)))
    requires RunInvariant(h, slots, st, before)
    requires event.Here? ==> !CallCollides(h, slots, event.call)
    ensures var after := After(h, before, event);
            Distinct(after.accepted) && forall t :: t in after.accepted ==> t in CanonicalAll(slots)
  {
    if event.Here? && Claim(h, before.state, event.call).Ok? {
      ClaimSoundness(h, slots, event.call.terms, event.call.proof);
      AcceptKeepsBooks(h, st, before, event.call);
    }
  }

  lemma {:induction false} RunKeepsInvariant(h: Hash, slots: seq<Terms>, st: BatchState, events: seq<Event>)
    requires slots != [] && forall e :: e in events ==> InRangeEvent(e)
    requires st.root == Root(h, Leaves(h, Preimages(slots)))
    ensures RunCollides(h, slots, events) || RunInvariant(h, slots, st, RunClaims(h, st, events))
    decreases |events|
  {
    RunIsBookkept(h, st, events);
    if events != [] {
      var event, earlier := events[|events| - 1], events[..|events| - 1];
      RunKeepsInvariant(h, slots, st, earlier);
      assert event in events && forall e :: e in earlier ==> e in events;
      if !RunCollides(h, slots, events) {
        AcceptedIsCommitted(h, slots, st, RunClaims(h, st, earlier), event);
      }
    }
  }

  /**
   * Solvency over whole histories and for any deposit: each payment is for a committed slot, no slot is paid
   * twice, and the balance that is left is the deposit minus what was paid out, which is at most the total of the
   * slots; or some call collides. So a deposit of that total is never overdrawn.
   */
  lemma Solvency(h: Hash, slots: seq<Terms>, st: BatchState, events: seq<Event>)
    requires slots != [] && forall e :: e in events ==> InRangeEvent(e)
    requires st.root == Root(h, Leaves(h, Preimages(slots)))
    requires InI128(TotalAmount(slots)) && forall s :: s in slots ==> s.amount >= 0
    ensures var run := RunClaims(h, st, events);
            || RunCollides(h, slots, events)
            || (&& Distinct(run.accepted)
                && (forall t :: t in run.accepted ==> t in CanonicalAll(slots))
                && run.state.remaining == st.remaining - TotalAmount(run.accepted)
                && 0 <= TotalAmount(run.accepted) <= TotalAmount(slots))
  {
    RunKeepsInvariant(h, slots, st, events);
    if !RunCollides(h, slots, events) {
      CanonicalTotal(slots);
      DistinctMembersCost(RunClaims(h, st, events).accepted, CanonicalAll(slots));
    }
  }

  // ----- One row -----

  /**
   * Builder and contract agree: a committed in-range row of a validated CSV is accepted with its own
   * proof exactly when the batch has not expired, the row is worth at least one stroop, and its
   * leaf has not been claimed before, be it by an equal row or in another batch.
   */
  lemma RowIsClaimable(h: Hash, decodeKey: KeyDecoder, rows: seq<ValidatedRow>, batch: Batch, i: nat,
                       st: BatchState, ledger: int)
    requires AllDecodable(decodeKey, rows) && i < |rows| <= 500 && Commits(h, decodeKey, rows, batch)
    requires ScheduleRow(rows[i]) && InRange(RowsTerms(decodeKey, rows)[i])
    requires st.root == batch.root && st.expiryLedger == batch.expiryLedger
    requires 0 <= st.remaining && InI128(st.remaining)
    ensures var e := batch.entries[i];
            && |e.proof| <= 9
            && (Claim(h, st, Call(ledger, RowsTerms(decodeKey, rows)[i], e.proof)).Ok? <==>
                && ledger < batch.expiryLedger
                && rows[i].amountStroops > 0
                && e.leaf !in st.claimed)
  {
    CeilLog2IsLeast(|rows|, 9);
    assert Pow2(9) == 512;
  }

  // ----- Every slot with its own proof -----

  /** The calls in which every slot is claimed once, in order, with its own proof. */
  function OwnCall(h: Hash, slots: seq<Terms>, ledger: int, k: nat): Call
    requires k < |slots|
  {
    Call(ledger, slots[k], ProofAt(h, Leaves(h, Preimages(slots)), k))
  }

  function OwnCalls(h: Hash, slots: seq<Terms>, ledger: int): (events: seq<Event>)
    ensures |events| == |slots| && forall i :: 0 <= i < |slots| ==> events[i] == Here(OwnCall(h, slots, ledger, i))
  {
    seq(|slots|, i requires 0 <= i < |slots| => Here(OwnCall(h, slots, ledger, i)))
  }

  ghost predicate PayableSlot(t: Terms) {
    InRange(t) && t.amount > 0 && t.duration >= 60 && t.cliff <= t.duration
  }

  /** A batch of in-range slots that was committed with some deposit. */
  ghost predicate Committed(h: Hash, slots: seq<Terms>, st: BatchState) {
    && slots != [] && (forall s :: s in slots ==> InRange(s) && s.amount >= 0) && InI128(TotalAmount(slots))
    && st.root == Root(h, Leaves(h, Preimages(slots)))
    && 0 <= st.remaining && InI128(st.remaining)
  }

  /** Of a size that the depth limit admits, and not expired. */
  ghost predicate Claimable(slots: seq<Terms>, st: BatchState, ledger: int) {
    |slots| <= Pow2(MAX_PROOF_DEPTH) && ledger < st.expiryLedger
  }

  ghost predicate FirstPayable(h: Hash, claimed: set<Digest>, paid: seq<Terms>, slot: Terms) {
    PayableSlot(slot) && h(LeafPreimage(slot)) !in claimed + LeafSet(h, paid)
  }

  /** The payable slots whose leaf was neither claimed before nor belongs to an earlier one of them. */
  ghost function Payouts(h: Hash, slots: seq<Terms>, claimed: set<Digest>): seq<Terms> {
    if slots == [] then []
    else
      var earlier, slot := Payouts(h, slots[..|slots| - 1], claimed), slots[|slots| - 1];
      if FirstPayable(h, claimed, earlier, slot) then earlier + [slot] else earlier
  }

  /** All other slots. */
  ghost function Locked(h: Hash, slots: seq<Terms>, claimed: set<Digest>): seq<Terms> {
    if slots == [] then []
    else
      var earlier, slot := Payouts(h, slots[..|slots| - 1], claimed), slots[|slots| - 1];
      var locked := Locked(h, slots[..|slots| - 1], claimed);
      if FirstPayable(h, claimed, earlier, slot) then locked else locked + [slot]
  }

  lemma {:induction false} PayoutsAndLocked(h: Hash, slots: seq<Terms>, claimed: set<Digest>)
    requires forall s :: s in slots ==> s.amount >= 0
    ensures TotalAmount(Payouts(h, slots, claimed)) + TotalAmount(Locked(h, slots, claimed)) == TotalAmount(slots)
    ensures TotalAmount(Locked(h, slots, claimed)) >= 0
  {
    if slots != [] {
      var shorter, slot := slots[..|slots| - 1], slots[|slots| - 1];
      assert slot in slots && forall s :: s in shorter ==> s in slots;
      PayoutsAndLocked(h, shorter, claimed);
      TotalOneMore(Payouts(h, shorter, claimed), slot);
      TotalOneMore(Locked(h, shorter, claimed), slot);
    }
  }

  /** Every payable slot's leaf is claimed in the end. */
  lemma {:induction false} PayoutsComplete(h: Hash, slots: seq<Terms>, claimed: set<Digest>, slot: Terms)
    requires slot in slots && PayableSlot(slot)
    ensures h(LeafPreimage(slot)) in claimed + LeafSet(h, Payouts(h, slots, claimed))
  {
    var shorter, last := slots[..|slots| - 1], slots[|slots| - 1];
    assert slots == shorter + [last];
    LeafSetOneMore(h, Payouts(h, shorter, claimed), last);
    if slot in shorter {
      PayoutsComplete(h, shorter, claimed, slot);
    }
  }

  lemma {:induction false} PayoutsNonNegative(h: Hash, slots: seq<Terms>, claimed: set<Digest>)
    ensures TotalAmount(Payouts(h, slots, claimed)) >= 0
    ensures forall t :: t in Payouts(h, slots, claimed) ==> PayableSlot(t) && t in slots
  {
    if slots != [] {
      PayoutsNonNegative(h, slots[..|slots| - 1], claimed);
      TotalOneMore(Payouts(h, slots[..|slots| - 1], claimed), slots[|slots| - 1]);
    }
  }

  lemma PayoutsOneMore(h: Hash, slots: seq<Terms>, slot: Terms, claimed: set<Digest>)
    ensures var paid := Payouts(h, slots, claimed);
            if FirstPayable(h, claimed, paid, slot) then
              && Payouts(h, slots + [slot], claimed) == paid + [slot]
              && Locked(h, slots + [slot], claimed) == Locked(h, slots, claimed)
            else
              && Payouts(h, slots + [slot], claimed) == paid
              && Locked(h, slots + [slot], claimed) == Locked(h, slots, claimed) + [slot]
  {
    assert (slots + [slot])[..|slots|] == slots;
  }

  /** The run in which the first `k` slots have been claimed. */
  ghost function OwnRun(h: Hash, slots: seq<Terms>, st: BatchState, k: nat): Run
    requires k <= |slots|
  {
    var paid := Payouts(h, slots[..k], st.claimed);
    Run(st.(claimed := st.claimed + LeafSet(h, paid), remaining := st.remaining - TotalAmount(paid)), paid, {})
  }

  lemma OwnProofAccepted(h: Hash, slots: seq<Terms>, k: nat)
    requires k < |slots| <= Pow2(MAX_PROOF_DEPTH)
    ensures var leaves := Leaves(h, Preimages(slots));
            && |ProofAt(h, leaves, k)| <= MAX_PROOF_DEPTH
            && Fold(h, h(LeafPreimage(slots[k])), ProofAt(h, leaves, k)) == Root(h, leaves)
  {
    var leaves := Leaves(h, Preimages(slots));
    CeilLog2IsLeast(|leaves|, MAX_PROOF_DEPTH);
    ProofDepth(h, leaves, k);
    Completeness(h, leaves, k);
  }

  /** A call with a proof that folds to the root, against a balance that does not leave `i128`. */
  lemma ClaimOutcome(h: Hash, st: BatchState, call: Call)
    requires |call.proof| <= MAX_PROOF_DEPTH && call.ledger < st.expiryLedger && InRange(call.terms)
    requires Fold(h, h(LeafPreimage(call.terms)), call.proof) == st.root
    requires InI128(st.remaining - call.terms.amount)
    ensures Claim(h, st, call).Ok? <==> PayableSlot(call.terms) && h(LeafPreimage(call.terms)) !in st.claimed
  {
  }

  /** The slots before slot `k` and slot `k` itself cost at most the total. */
  lemma NextIsCovered(h: Hash, slots: seq<Terms>, claimed: set<Digest>, k: nat)
    requires k < |slots| && forall s :: s in slots ==> s.amount >= 0
    ensures 0 <= TotalAmount(Payouts(h, slots[..k], claimed)) <= TotalAmount(slots) - slots[k].amount
  {
    var before := slots[..k];
    assert forall s :: s in before ==> s in slots;
    PayoutsAndLocked(h, before, claimed);
    PayoutsNonNegative(h, before, claimed);
    PrefixTotal(slots, k + 1);
    assert slots[..k + 1][..k] == before;
  }

  /** A slot's own call is refused only if the slot is not payable or its leaf has been claimed. */
  lemma OwnCallOutcome(h: Hash, slots: seq<Terms>, st: BatchState, ledger: int, k: nat)
    requires k < |slots| && Claimable(slots, st, ledger) && InRange(slots[k])
    requires st.root == Root(h, Leaves(h, Preimages(slots))) && InI128(st.remaining - slots[k].amount)
    ensures Claim(h, st, OwnCall(h, slots, ledger, k)).Ok? <==>
              PayableSlot(slots[k]) && h(LeafPreimage(slots[k])) !in st.claimed
  {
    OwnProofAccepted(h, slots, k);
    ClaimOutcome(h, st, OwnCall(h, slots, ledger, k));
  }

  /** The books after the next slot. */
  lemma OwnRunNext(h: Hash, slots: seq<Terms>, st: BatchState, k: nat, before: Run, leaf: Digest)
    requires k < |slots| && before == OwnRun(h, slots, st, k) && leaf == h(LeafPreimage(slots[k]))
    ensures OwnRun(h, slots, st, k + 1) ==
              if PayableSlot(slots[k]) && leaf !in before.state.claimed then
                Run(before.state.(claimed := before.state.claimed + {leaf},
                                  remaining := before.state.remaining - slots[k].amount),
                    before.accepted + [slots[k]], {})
              else before
  {
    assert slots[..k + 1][..k] == slots[..k];
    LeafSetOneMore(h, before.accepted, slots[k]);
    TotalOneMore(before.accepted, slots[k]);
    assert st.claimed + LeafSet(h, before.accepted) + {leaf} == st.claimed + (LeafSet(h, before.accepted) + {leaf});
  }

  lemma OwnRunStep(h: Hash, slots: seq<Terms>, st: BatchState, ledger: int, k: nat, before: Run)
    requires Committed(h, slots, st) && Claimable(slots, st, ledger) && k < |slots| && before == OwnRun(h, slots, st, k)
    ensures AfterCall(h, before, OwnCall(h, slots, ledger, k)) == OwnRun(h, slots, st, k + 1)
  {
    var call := OwnCall(h, slots, ledger, k);
    assert slots[k] in slots;
    NextIsCovered(h, slots, st.claimed, k);
    OwnCallOutcome(h, slots, before.state, ledger, k);
    OwnRunNext(h, slots, st, k, before, h(LeafPreimage(slots[k])));
    if Claim(h, before.state, call).Ok? {
      AcceptedCall(h, before.state, call);
    }
  }

  lemma OwnRunStart(h: Hash, slots: seq<Terms>, st: BatchState)
    ensures OwnRun(h, slots, st, 0) == Run(st, [], {})
  {
    assert LeafSet(h, []) == {};
    assert st.claimed + {} == st.claimed;
  }

  lemma RunNext(h: Hash, st: BatchState, events: seq<Event>, k: nat, before: Run, after: Run)
    requires k < |events| && RunClaims(h, st, events[..k]) == before && After(h, before, events[k]) == after
    ensures RunClaims(h, st, events[..k + 1]) == after
  {
    assert events[..k + 1] == events[..k] + [events[k]];
    RunOneMore(h, st, events[..k], events[k]);
  }

  lemma {:induction false} OwnRunPrefix(h: Hash, slots: seq<Terms>, st: BatchState, ledger: int, k: nat,
                                        own: seq<Event>)
    requires Committed(h, slots, st) && Claimable(slots, st, ledger) && k <= |slots|
    requires own == OwnCalls(h, slots, ledger)
    ensures RunClaims(h, st, own[..k]) == OwnRun(h, slots, st, k)
  {
    if k == 0 {
      OwnRunStart(h, slots, st);
    } else {
      OwnRunPrefix(h, slots, st, ledger, k - 1, own);
      OwnRunStep(h, slots, st, ledger, k - 1, OwnRun(h, slots, st, k - 1));
      RunNext(h, st, own, k - 1, OwnRun(h, slots, st, k - 1), OwnRun(h, slots, st, k));
    }
  }

  /**
   * What claiming every slot of a committed batch with its own proof pays and what it leaves: the first payable
   * slot of each new leaf is paid, and with a deposit of the total the amounts of all others are still there.
   */
  lemma OwnClaimsPay(h: Hash, slots: seq<Terms>, st: BatchState, ledger: int)
    requires Committed(h, slots, st) && Claimable(slots, st, ledger)
    ensures var run := RunClaims(h, st, OwnCalls(h, slots, ledger));
            && run.accepted == Payouts(h, slots, st.claimed)
            && run.state.remaining == st.remaining - TotalAmount(run.accepted)
            && run.state.remaining == st.remaining - TotalAmount(slots) + TotalAmount(Locked(h, slots, st.claimed))
            && run.state.claimed == st.claimed + LeafSet(h, run.accepted)
  {
    assert OwnCalls(h, slots, ledger)[..|slots|] == OwnCalls(h, slots, ledger) && slots[..|slots|] == slots;
    OwnRunPrefix(h, slots, st, ledger, |slots|, OwnCalls(h, slots, ledger));
    PayoutsAndLocked(h, slots, st.claimed);
  }

  /** Payable slots whose leaves are new and pairwise different. */
  ghost predicate AllPayable(h: Hash, slots: seq<Terms>, claimed: set<Digest>) {
    && (forall s :: s in slots ==> PayableSlot(s) && h(LeafPreimage(s)) !in claimed)
    && DistinctLeaves(h, slots)
  }

  lemma LastLeafIsNew(h: Hash, shorter: seq<Terms>, slot: Terms)
    requires DistinctLeaves(h, shorter + [slot])
    ensures h(LeafPreimage(slot)) !in LeafSet(h, shorter)
  {
    var slots := shorter + [slot];
    forall i | 0 <= i < |shorter|
      ensures h(LeafPreimage(shorter[i])) != h(LeafPreimage(slot))
    {
      assert slots[i] == shorter[i] && slots[|shorter|] == slot;
    }
  }

  lemma {:induction false} AllArePaid(h: Hash, slots: seq<Terms>, claimed: set<Digest>)
    requires AllPayable(h, slots, claimed)
    ensures Payouts(h, slots, claimed) == slots
  {
    if slots != [] {
      var shorter, slot := slots[..|slots| - 1], slots[|slots| - 1];
      assert slots == shorter + [slot] && slot in slots && forall s :: s in shorter ==> s in slots;
      AllArePaid(h, shorter, claimed);
      PayoutsOneMore(h, shorter, slot, claimed);
      LastLeafIsNew(h, shorter, slot);
    }
  }

  lemma SameSlotSameCall(h: Hash, slots: seq<Terms>, i: nat, j: nat)
    requires DistinctLeaves(h, slots) && i < |slots| && j < |slots| && slots[i] == slots[j]
    ensures i == j
  {
  }

  /** With different leaves, an accepted slot was accepted by its own call. */
  lemma OwnCallPassed(h: Hash, slots: seq<Terms>, st: BatchState, events: seq<Event>, i: nat)
    requires |events| == |slots| && forall j :: 0 <= j < |slots| ==> events[j].Here? && events[j].call.terms == slots[j]
    requires i < |slots| && DistinctLeaves(h, slots) && CalledFor(st, events, slots)
    ensures Passed(st, events[i].call)
  {
    assert slots[i] in slots;
    var e :| e in events && e.Here? && e.call.terms == slots[i] && Passed(st, e.call);
    var j :| 0 <= j < |events| && events[j] == e;
    SameSlotSameCall(h, slots, i, j);
  }

  lemma PassedMeansClaimable(h: Hash, slots: seq<Terms>, st: BatchState, ledger: int)
    requires slots != [] && forall i :: 0 <= i < |slots| ==> Passed(st, OwnCall(h, slots, ledger, i))
    ensures Claimable(slots, st, ledger)
  {
    var leaves := Leaves(h, Preimages(slots));
    assert Passed(st, OwnCall(h, slots, ledger, 0));
    forall i | 0 <= i < |leaves|
      ensures |ProofAt(h, leaves, i)| <= MAX_PROOF_DEPTH
    {
      assert Passed(st, OwnCall(h, slots, ledger, i));
    }
    DepthLimitExact(h, leaves, MAX_PROOF_DEPTH);
  }

  lemma OwnCallsPassed(h: Hash, slots: seq<Terms>, st: BatchState, ledger: int, own: seq<Event>)
    requires own == OwnCalls(h, slots, ledger) && DistinctLeaves(h, slots) && CalledFor(st, own, slots)
    ensures forall i :: 0 <= i < |slots| ==> Passed(st, OwnCall(h, slots, ledger, i))
  {
    forall i | 0 <= i < |slots|
      ensures Passed(st, OwnCall(h, slots, ledger, i))
    {
      OwnCallPassed(h, slots, st, own, i);
    }
  }

  lemma PassedMeansPayable(h: Hash, slots: seq<Terms>, st: BatchState, ledger: int)
    requires forall i :: 0 <= i < |slots| ==> InRange(slots[i]) && Passed(st, OwnCall(h, slots, ledger, i))
    ensures forall s :: s in slots ==> PayableSlot(s)
  {
    forall i | 0 <= i < |slots|
      ensures PayableSlot(slots[i])
    {
      assert Passed(st, OwnCall(h, slots, ledger, i));
    }
  }

  lemma PaidMeansPassed(h: Hash, slots: seq<Terms>, st: BatchState, ledger: int, run: Run)
    requires Committed(h, slots, st) && run == RunClaims(h, st, OwnCalls(h, slots, ledger)) && run.accepted == slots
    ensures Claimable(slots, st, ledger) && AllPayable(h, slots, st.claimed)
  {
    RunIsBookkept(h, st, OwnCalls(h, slots, ledger));
    OwnCallsPassed(h, slots, st, ledger, OwnCalls(h, slots, ledger));
    assert forall i :: 0 <= i < |slots| ==> slots[i] in slots;
    PassedMeansPayable(h, slots, st, ledger);
    PassedMeansClaimable(h, slots, st, ledger);
  }

  /**
   * Liveness beside solvency: claiming every slot of a committed batch with its own proof pays all of them if
   * and only if the batch has not expired, its proofs are within the depth limit, and all slots are payable,
   * with leaves that are new and pairwise different. Then what is left is what the deposit had beyond the total.
   */
  lemma EverySlotIsPaid(h: Hash, slots: seq<Terms>, st: BatchState, ledger: int)
    requires Committed(h, slots, st)
    ensures var run := RunClaims(h, st, OwnCalls(h, slots, ledger));
            && (run.accepted == slots <==> Claimable(slots, st, ledger) && AllPayable(h, slots, st.claimed))
            && (run.accepted == slots ==> run.state.remaining == st.remaining - TotalAmount(slots))
  {
    var events := OwnCalls(h, slots, ledger);
    RunIsBookkept(h, st, events);
    if Claimable(slots, st, ledger) && AllPayable(h, slots, st.claimed) {
      OwnClaimsPay(h, slots, st, ledger);
      AllArePaid(h, slots, st.claimed);
    }
    if RunClaims(h, st, events).accepted == slots {
      PaidMeansPassed(h, slots, st, ledger, RunClaims(h, st, events));
    }
  }

  lemma RepeatedPayouts(h: Hash, slot: Terms, claimed: set<Digest>)
    requires PayableSlot(slot) && h(LeafPreimage(slot)) !in claimed
    ensures Payouts(h, [slot, slot], claimed) == Locked(h, [slot, slot], claimed) == [slot]
  {
    PayoutsOneMore(h, [], slot, claimed);
    PayoutsOneMore(h, [slot], slot, claimed);
    assert [] + [slot] == [slot] && [slot] + [slot] == [slot, slot];
    assert slot in [slot];
    assert h(LeafPreimage(slot)) in LeafSet(h, [slot]);
  }

  /** The repeated row: it is paid once, and the amount of its repetition stays in the batch. */
  lemma RepeatedSlotIsPaidOnce(h: Hash, slot: Terms, st: BatchState, ledger: int)
    requires Committed(h, [slot, slot], st) && PayableSlot(slot) && ledger < st.expiryLedger
    requires h(LeafPreimage(slot)) !in st.claimed
    ensures var run := RunClaims(h, st, OwnCalls(h, [slot, slot], ledger));
            run.accepted == [slot] && run.state.remaining == st.remaining - TotalAmount([slot, slot]) + slot.amount
  {
    CeilLog2IsLeast(2, MAX_PROOF_DEPTH);
    OwnClaimsPay(h, [slot, slot], st, ledger);
    RepeatedPayouts(h, slot, st.claimed);
    TotalOneMore([], slot);
    assert [] + [slot] == [slot];
  }

  // ----- The most a batch can pay -----

  lemma InRangeIsCanonical(slots: seq<Terms>)
    requires forall s :: s in slots ==> InRange(s)
    ensures CanonicalAll(slots) == slots
  {
    forall i | 0 <= i < |slots|
      ensures Canonical(slots[i]) == slots[i]
    {
      assert slots[i] in slots;
      CanonicalFacts(slots[i]);
    }
  }

  /** A committed payable slot whose leaf was new is among the payouts, or its leaf has two preimages. */
  lemma PaidOutOrCollides(h: Hash, slots: seq<Terms>, claimed: set<Digest>, call: Call)
    requires call.terms in slots && PayableSlot(call.terms) && h(LeafPreimage(call.terms)) !in claimed
    requires forall s :: s in slots ==> InRange(s)
    ensures call.terms in Payouts(h, slots, claimed) || CallCollides(h, slots, call)
  {
    PayoutsComplete(h, slots, claimed, call.terms);
    PayoutsNonNegative(h, slots, claimed);
    var p :| p in Payouts(h, slots, claimed) && h(LeafPreimage(p)) == h(LeafPreimage(call.terms));
    if p != call.terms {
      LeafPreimageInjective(p, call.terms);
      var i :| 0 <= i < |slots| && slots[i] == p;
      assert Preimages(slots)[i] == LeafPreimage(p);
      assert LeafPreimage(call.terms) in VerifierPreimages(h, LeafPreimage(call.terms), call.proof);
      assert LeafPreimage(p) in BuilderPreimages(h, Preimages(slots));
    }
  }

  /** No history pays more than the slots' own claims do, whatever else is tried in between. */
  lemma PayoutsAreMost(h: Hash, slots: seq<Terms>, st: BatchState, events: seq<Event>)
    requires Committed(h, slots, st) && forall e :: e in events ==> InRangeEvent(e)
    ensures var run := RunClaims(h, st, events);
            || RunCollides(h, slots, events)
            || (&& (forall t :: t in run.accepted ==> t in Payouts(h, slots, st.claimed))
                && run.state.remaining >= st.remaining - TotalAmount(Payouts(h, slots, st.claimed)))
  {
    var run := RunClaims(h, st, events);
    RunKeepsInvariant(h, slots, st, events);
    RunIsBookkept(h, st, events);
    if !RunCollides(h, slots, events) {
      InRangeIsCanonical(slots);
      forall t | t in run.accepted
        ensures t in Payouts(h, slots, st.claimed)
      {
        var e :| e in events && e.Here? && e.call.terms == t && Passed(st, e.call);
        PaidOutOrCollides(h, slots, st.claimed, e.call);
      }
      PayoutsNonNegative(h, slots, st.claimed);
      DistinctMembersCost(run.accepted, Payouts(h, slots, st.claimed));
    }
  }

  ghost predicate Overdrawn(h: Hash, st: BatchState, events: seq<Event>) {
    RunClaims(h, st, events).state.remaining < 0
  }

  /**
   * The balance of an open batch stays non-negative, with its slots' own claims and in every history without a
   * collision, if and only if the deposit covers the payouts.
   */
  lemma SolventExactly(h: Hash, slots: seq<Terms>, st: BatchState, ledger: int)
    requires Committed(h, slots, st) && Claimable(slots, st, ledger)
    ensures && !Overdrawn(h, st, OwnCalls(h, slots, ledger))
            && (forall events :: (forall e :: e in events ==> InRangeEvent(e)) && Overdrawn(h, st, events) ==>
                  RunCollides(h, slots, events))
       <==> TotalAmount(Payouts(h, slots, st.claimed)) <= st.remaining
  {
    OwnClaimsPay(h, slots, st, ledger);
    if TotalAmount(Payouts(h, slots, st.claimed)) <= st.remaining {
      forall events | (forall e :: e in events ==> InRangeEvent(e)) && Overdrawn(h, st, events)
        ensures RunCollides(h, slots, events)
      {
        PayoutsAreMost(h, slots, st, events);
      }
    }
  }

  // ----- What stays -----

  lemma AllClaimedAlready(h: Hash, slots: seq<Terms>, st: BatchState, call: Call)
    requires slots != [] && (forall s :: s in slots ==> InRange(s)) && InRange(call.terms)
    requires st.root == Root(h, Leaves(h, Preimages(slots)))
    requires forall s :: s in slots && PayableSlot(s) ==> h(LeafPreimage(s)) in st.claimed
    requires !CallCollides(h, slots, call)
    ensures Claim(h, st, call).Err?
  {
    InRangeIsCanonical(slots);
    if Claim(h, st, call).Ok? {
      AcceptedCall(h, st, call);
      ClaimSoundness(h, slots, call.terms, call.proof);
    }
  }

  /** A run from which nothing more can be claimed, and a later one in which nothing more was. */
  ghost predicate NothingMore(h: Hash, slots: seq<Terms>, run: Run, later: Run)
    requires slots != []
  {
    && later.accepted == run.accepted && later.state.remaining == run.state.remaining
    && later.state.root == run.state.root == Root(h, Leaves(h, Preimages(slots)))
    && forall s :: s in slots && PayableSlot(s) ==> h(LeafPreimage(s)) in later.state.claimed
  }

  lemma NothingMoreStep(h: Hash, slots: seq<Terms>, run: Run, later: Run, event: Event)
    requires slots != [] && (forall s :: s in slots ==> InRange(s)) && InRangeEvent(event)
    requires NothingMore(h, slots, run, later) && (event.Here? ==> !CallCollides(h, slots, event.call))
    ensures NothingMore(h, slots, run, After(h, later, event))
  {
    if event.Here? {
      AllClaimedAlready(h, slots, later.state, event.call);
    }
  }

  lemma OwnRunIsFinal(h: Hash, slots: seq<Terms>, st: BatchState, ledger: int, run: Run)
    requires Committed(h, slots, st) && Claimable(slots, st, ledger)
            && run == RunClaims(h, st, OwnCalls(h, slots, ledger))
    ensures NothingMore(h, slots, run, run)
  {
    OwnClaimsPay(h, slots, st, ledger);
    RunIsBookkept(h, st, OwnCalls(h, slots, ledger));
    forall s | s in slots && PayableSlot(s)
      ensures h(LeafPreimage(s)) in run.state.claimed
    {
      PayoutsComplete(h, slots, st.claimed, s);
    }
  }

  lemma AppendEvent(h: Hash, st: BatchState, own: seq<Event>, earlier: seq<Event>, event: Event)
    ensures RunClaims(h, st, own + (earlier + [event])) == After(h, RunClaims(h, st, own + earlier), event)
  {
    assert own + (earlier + [event]) == (own + earlier) + [event];
    RunOneMore(h, st, own + earlier, event);
  }

  lemma {:induction false} NothingMoreEver(h: Hash, slots: seq<Terms>, st: BatchState, own: seq<Event>, run: Run,
                                           more: seq<Event>)
    requires slots != [] && (forall s :: s in slots ==> InRange(s)) && forall e :: e in more ==> InRangeEvent(e)
    requires run == RunClaims(h, st, own) && NothingMore(h, slots, run, run) && !RunCollides(h, slots, more)
    ensures NothingMore(h, slots, run, RunClaims(h, st, own + more))
    decreases |more|
  {
    if more == [] {
      assert own + more == own;
    } else {
      var event, earlier := more[|more| - 1], more[..|more| - 1];
      assert more == earlier + [event] && event in more && forall e :: e in earlier ==> e in more;
      NothingMoreEver(h, slots, st, own, run, earlier);
      NothingMoreStep(h, slots, run, RunClaims(h, st, own + earlier), event);
      AppendEvent(h, st, own, earlier, event);
    }
  }

  /**
   * What is left after the slots' own claims can no longer be claimed: whatever is called afterwards, here with
   * whatever proofs or on other batches, nothing more is paid from this batch, or some call collides.
   */
  lemma RestStaysLocked(h: Hash, slots: seq<Terms>, st: BatchState, ledger: int, own: seq<Event>, more: seq<Event>)
    requires Committed(h, slots, st) && Claimable(slots, st, ledger) && own == OwnCalls(h, slots, ledger)
    requires forall e :: e in more ==> InRangeEvent(e)
    ensures var run, later := RunClaims(h, st, own), RunClaims(h, st, own + more);
            || RunCollides(h, slots, more)
            || (later.accepted == run.accepted && later.state.remaining == run.state.remaining)
  {
    if !RunCollides(h, slots, more) {
      OwnRunIsFinal(h, slots, st, ledger, RunClaims(h, st, own));
      NothingMoreEver(h, slots, st, own, RunClaims(h, st, own), more);
    }
  }
}
