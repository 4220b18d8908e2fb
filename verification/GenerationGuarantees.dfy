/** What the generation pipeline guarantees in every run: stable verdicts, conserved quota, a bounded ladder. */
module GenerationGuarantees {
  import opened Base
  import opened SupersedeChain
  import opened GenerationRows
  import opened RollupAndLadder
  import opened GenerationPipeline

  // ---------------------------------------------------------------- the first attempt decides

  function FirstVerdict(status: ItemStatus): Verdict {
    match status
    case Succeeded => Good
    case Dead => Bad
    case _ => Open
  }

  /** A started slot's verdict is decided by its first attempt: a later one exists only once the first succeeded. */
  lemma FirstAttemptDecides(s: Gen, r: nat, slot: Slot) returns (i: nat)
    requires Ladder(s) && r < |s.reqs| && s.reqs[r].status != Queued && slot in s.reqs[r].required
    ensures IsAttempt(s.items, i, r, slot, 1)
    ensures SlotVerdict(RowsOf(s.items, r), slot) == FirstVerdict(s.items[i].status)
  {
    assert HasAttempt(s.items, r, slot, 1);
    i :| IsAttempt(s.items, i, r, slot, 1);
    var attempts := Attempts(s.items, r, slot);
    InAttempts(s.items, r, slot, s.items[i]);
    if s.items[i].status != Succeeded {
      forall x | x in attempts ensures x == s.items[i] {
        InAttempts(s.items, r, slot, x);
        OnlyAttempt(s, i, x);
      }
    }
  }

  lemma OnlyAttempt(s: Gen, i: nat, x: Item)
    requires Ladder(s) && i < |s.items| && s.items[i].status != Succeeded && s.items[i].lineage.attempt == 1
    requires x in s.items && x.lineage.req == s.items[i].lineage.req && x.lineage.slot == s.items[i].lineage.slot
    ensures x == s.items[i]
  {
    var j :| 0 <= j < |s.items| && s.items[j] == x;
    if s.items[j].lineage.attempt > 1 {
      var m := LaterAttemptMeansFailedImage(s, i, j);
    }
  }

  /** A running request never has a required slot without items. */
  lemma NoSlotIsEmpty(s: Gen, r: nat, slot: Slot)
    requires Ladder(s) && r < |s.reqs| && s.reqs[r].status != Queued && slot in s.reqs[r].required
    ensures Attempts(s.items, r, slot) != []
  {
    assert HasAttempt(s.items, r, slot, 1);
    var i: nat :| IsAttempt(s.items, i, r, slot, 1);
    InAttempts(s.items, r, slot, s.items[i]);
  }

  lemma VerdictStable(s: Gen, step: Step, r: nat, slot: Slot)
    requires Ladder(s) && Ladder(Next(s, step))
    requires r < |s.reqs| && s.reqs[r].status != Queued && slot in s.reqs[r].required
    requires SlotVerdict(RowsOf(s.items, r), slot) != Open
    ensures SlotVerdict(RowsOf(Next(s, step).items, r), slot) == SlotVerdict(RowsOf(s.items, r), slot)
  {
    var s' := Next(s, step);
    var i := FirstAttemptDecides(s, r, slot);
    RequestsGrow(s, step);
    ItemsGrow(s, step);
    SameFirst(s', r, slot, i);
  }

  lemma SameFirst(s: Gen, r: nat, slot: Slot, i: nat)
    requires Ladder(s) && r < |s.reqs| && s.reqs[r].status != Queued && slot in s.reqs[r].required
    requires IsAttempt(s.items, i, r, slot, 1)
    ensures SlotVerdict(RowsOf(s.items, r), slot) == FirstVerdict(s.items[i].status)
  {
    var j := FirstAttemptDecides(s, r, slot);
    assert i == j;
  }

  /** Once the rollup has a status, no step changes it or its counts. */
  lemma RollupStable(s: Gen, step: Step, r: nat)
    requires Ladder(s) && Ladder(Next(s, step)) && r < |s.reqs| && s.reqs[r].status != Queued && RollupNow(s, r).status.Some?
    ensures r < |Next(s, step).reqs| && RollupNow(Next(s, step), r) == RollupNow(s, r)
  {
    RequestsGrow(s, step);
    forall slot | slot in s.reqs[r].required
      ensures SlotVerdict(RowsOf(s.items, r), slot) == SlotVerdict(RowsOf(Next(s, step).items, r), slot)
    {
      VerdictStable(s, step, r, slot);
    }
    RollupCongruent(s.reqs[r].required, RowsOf(s.items, r), RowsOf(Next(s, step).items, r));
  }

  // ---------------------------------------------------------------- sums over requests

  function Total(ws: seq<nat>): nat {
    if ws == [] then 0 else Total(ws[..|ws| - 1]) + ws[|ws| - 1]
  }

  lemma TotalAppend(ws: seq<nat>, w: nat)
    ensures Total(ws + [w]) == Total(ws) + w
  {
    assert (ws + [w])[..|ws|] == ws;
  }

  lemma {:induction false} TotalUpdate(ws: seq<nat>, i: nat, w: nat)
    requires i < |ws|
    ensures Total(ws[i := w]) == Total(ws) - ws[i] + w
  {
    var n := |ws| - 1;
    if i == n {
      assert ws[i := w][..n] == ws[..n];
    } else {
      assert ws[i := w][..n] == ws[..n][i := w];
      TotalUpdate(ws[..n], i, w);
    }
  }

  lemma {:induction false} TotalZero(ws: seq<nat>)
    requires forall i | 0 <= i < |ws| :: ws[i] == 0
    ensures Total(ws) == 0
  {
    if ws != [] {
      TotalZero(ws[..|ws| - 1]);
    }
  }

  /** What an unsettled request of the period holds reserved: its required slots. */
  function Holds(s: Gen, r: nat, period: Period): nat
    requires r < |s.reqs|
  {
    if s.reqs[r].period == period && !s.reqs[r].Settled() then |s.reqs[r].required| else 0
  }

  /** What a settled request of the period consumed: its succeeded slots. */
  function Consumed(s: Gen, r: nat, period: Period): nat
    requires r < |s.reqs|
  {
    if s.reqs[r].period == period && s.reqs[r].Settled() then RollupNow(s, r).succeeded else 0
  }

  function Held(s: Gen, period: Period): seq<nat> { seq(|s.reqs|, r requires 0 <= r < |s.reqs| => Holds(s, r, period)) }

  function Used(s: Gen, period: Period): seq<nat> { seq(|s.reqs|, r requires 0 <= r < |s.reqs| => Consumed(s, r, period)) }

  // ---------------------------------------------------------------- quota and settlements

  ghost predicate SettledAsRolledUp(s: Gen) {
    forall r | 0 <= r < |s.reqs| && s.reqs[r].Settled() :: RollupNow(s, r).status == Some(s.reqs[r].status)
  }

  ghost predicate ChargedToTheirRow(s: Gen) {
    forall r | 0 <= r < |s.reqs| :: s.reqs[r].reservation.Some? && QuotaMatches(s, r)
  }

  predicate Balanced(s: Gen, period: Period)
    requires period in s.quotas
  {
    var q := s.quotas[period];
    q.reserved == q.committed + Total(Held(s, period)) && q.committed == Total(Used(s, period)) && q.reserved <= q.limit
  }

  ghost predicate Inv(s: Gen) {
    && Ladder(s) && WellFormed(Links(s.images)) && SettledAsRolledUp(s) && ChargedToTheirRow(s)
    && forall period | period in s.quotas :: Balanced(s, period)
  }

  lemma KeepsSettledAsRolledUp(s: Gen, step: Step)
    requires Ladder(s) && Ladder(Next(s, step)) && SettledAsRolledUp(s)
    ensures SettledAsRolledUp(Next(s, step))
  {
    var s' := Next(s, step);
    forall r | 0 <= r < |s'.reqs| && s'.reqs[r].Settled() ensures RollupNow(s', r).status == Some(s'.reqs[r].status) {
      RequestsGrow(s, step);
      SettlesOnce(s, step, r);
      RollupStable(s, step, r);
    }
  }

  /** A settled request was settled before with the same status, or this step settles it as rolled up. */
  lemma SettlesOnce(s: Gen, step: Step, r: nat)
    requires r < |Next(s, step).reqs| && Next(s, step).reqs[r].Settled() && SettledAsRolledUp(s)
    ensures r < |s.reqs| && s.reqs[r].status != Queued && RollupNow(s, r).status == Some(Next(s, step).reqs[r].status)
    ensures s.reqs[r].Settled() || (step.Reconcile? && step.req == r && Enabled(s, step))
  {}

  lemma KeepsChargedToTheirRow(s: Gen, step: Step)
    requires ChargedToTheirRow(s)
    ensures ChargedToTheirRow(Next(s, step))
  {}

  lemma SameWeights(s: Gen, s': Gen, period: Period)
    requires |s'.reqs| == |s.reqs|
    requires forall r | 0 <= r < |s.reqs| :: Consumed(s', r, period) == Consumed(s, r, period) && Holds(s', r, period) == Holds(s, r, period)
    ensures Used(s', period) == Used(s, period) && Held(s', period) == Held(s, period)
  {}

  /** Outside settlement a request keeps its period, its slots and whether it is settled. */
  lemma OtherStepsKeepTerms(s: Gen, step: Step, r: nat)
    requires r < |s.reqs| && !step.CreateRequest? && !step.Reconcile?
    ensures |Next(s, step).reqs| == |s.reqs|
    ensures var q := Next(s, step).reqs[r];
            q.period == s.reqs[r].period && q.required == s.reqs[r].required && (q.Settled() <==> s.reqs[r].Settled())
  {}

  lemma SameTermsSameWeight(s: Gen, s': Gen, period: Period, r: nat)
    requires r < |s.reqs| == |s'.reqs|
    requires s'.reqs[r].period == s.reqs[r].period && s'.reqs[r].required == s.reqs[r].required
    requires s'.reqs[r].Settled() <==> s.reqs[r].Settled()
    requires s.reqs[r].Settled() ==> RollupNow(s', r) == RollupNow(s, r)
    ensures Consumed(s', r, period) == Consumed(s, r, period) && Holds(s', r, period) == Holds(s, r, period)
  {}

  lemma WeightStable(s: Gen, step: Step, period: Period, r: nat)
    requires Ladder(s) && Ladder(Next(s, step)) && SettledAsRolledUp(s)
    requires !step.CreateRequest? && !step.Reconcile? && r < |s.reqs| == |Next(s, step).reqs|
    ensures Consumed(Next(s, step), r, period) == Consumed(s, r, period) && Holds(Next(s, step), r, period) == Holds(s, r, period)
  {
    OtherStepsKeepTerms(s, step, r);
    if s.reqs[r].Settled() { RollupStable(s, step, r); }
    SameTermsSameWeight(s, Next(s, step), period, r);
  }

  lemma UsedStable(s: Gen, step: Step, period: Period)
    requires Ladder(s) && Ladder(Next(s, step)) && SettledAsRolledUp(s)
    requires !step.CreateRequest? && !step.Reconcile?
    ensures Used(Next(s, step), period) == Used(s, period) && Held(Next(s, step), period) == Held(s, period)
  {
    OtherStepsKeepQuotas(s, step);
    forall r | 0 <= r < |s.reqs|
      ensures Consumed(Next(s, step), r, period) == Consumed(s, r, period) && Holds(Next(s, step), r, period) == Holds(s, r, period)
    {
      WeightStable(s, step, period, r);
    }
    SameWeights(s, Next(s, step), period);
  }

  lemma OtherStepsKeepQuotas(s: Gen, step: Step)
    requires !step.CreateRequest? && !step.Reconcile?
    ensures |Next(s, step).reqs| == |s.reqs|
    ensures !step.EnsurePeriod? ==> Next(s, step).quotas == s.quotas
  {}

  lemma CreateBalances(s: Gen, step: Step, period: Period)
    requires step.CreateRequest? && Enabled(s, step) && period in s.quotas && Balanced(s, period)
    ensures Balanced(Next(s, step), period)
  {
    var s' := Next(s, step);
    NewRequestBalances(s, s', s'.reqs[|s.reqs|], period);
  }

  lemma NewRequestBalances(s: Gen, s': Gen, req: Request, period: Period)
    requires period in s.quotas && Balanced(s, period) && period in s'.quotas
    requires s'.items == s.items && s'.reqs == s.reqs + [req] && !req.Settled()
    requires var q := s.quotas[period];
             s'.quotas[period] == (if req.period == period then q.(reserved := q.reserved + |req.required|) else q)
    requires s'.quotas[period].reserved <= s'.quotas[period].limit
    ensures Balanced(s', period)
  {
    NewRequestWeighs(s, s', period);
    TotalAppend(Held(s, period), Holds(s', |s.reqs|, period));
    TotalAppend(Used(s, period), 0);
  }

  /** A new request holds its slots and has consumed nothing. */
  lemma NewRequestWeighs(s: Gen, s': Gen, period: Period)
    requires s'.items == s.items && |s'.reqs| == |s.reqs| + 1 && s'.reqs[..|s.reqs|] == s.reqs && !s'.reqs[|s.reqs|].Settled()
    ensures Held(s', period) == Held(s, period) + [Holds(s', |s.reqs|, period)]
    ensures Used(s', period) == Used(s, period) + [0]
  {
    forall r | 0 <= r < |s.reqs| ensures Consumed(s', r, period) == Consumed(s, r, period) && Holds(s', r, period) == Holds(s, r, period) {
      assert s'.reqs[r] == s'.reqs[..|s.reqs|][r];
    }
  }

  lemma EnsureBalances(s: Gen, step: Step, period: Period)
    requires ChargedToTheirRow(s) && step.EnsurePeriod? && Enabled(s, step) && period in Next(s, step).quotas
    requires period in s.quotas ==> Balanced(s, period)
    ensures Balanced(Next(s, step), period)
  {
    var s' := Next(s, step);
    assert Held(s', period) == Held(s, period) && Used(s', period) == Used(s, period);
    if period == step.period {
      TotalZero(Held(s, period));
      TotalZero(Used(s, period));
    }
  }

  /** Settling touches one request and one quota row. */
  lemma SettleChanges(s: Gen, r: nat, now: Time)
    requires ChargedToTheirRow(s) && Enabled(s, Reconcile(r, now))
    ensures var s' := Next(s, Reconcile(r, now)); var period := s.reqs[r].period; var rollup := RollupNow(s, r);
            && s'.items == s.items && s'.reqs == s.reqs[r := s.reqs[r].(status := rollup.status.value, completedAt := Some(now))] && s'.reqs[r].Settled()
            && period in s.quotas
            && s'.quotas == s.quotas[period := s.quotas[period].(committed := s.quotas[period].committed + rollup.succeeded,
                                                                 reserved := s.quotas[period].reserved - rollup.failed)]
  {}

  lemma SettleWeights(s: Gen, s': Gen, r: nat, period: Period)
    requires r < |s.reqs| && s.reqs[r].status == InProgress && s'.items == s.items
    requires |s'.reqs| == |s.reqs| && s'.reqs == s.reqs[r := s'.reqs[r]] && s'.reqs[r].Settled()
    requires s'.reqs[r].period == s.reqs[r].period && s'.reqs[r].required == s.reqs[r].required
    ensures Total(Held(s', period)) == Total(Held(s, period)) - (if s.reqs[r].period == period then |s.reqs[r].required| else 0)
    ensures Total(Used(s', period)) == Total(Used(s, period)) + (if s.reqs[r].period == period then RollupNow(s, r).succeeded else 0)
  {
    assert Held(s', period) == Held(s, period)[r := Holds(s', r, period)];
    assert Used(s', period) == Used(s, period)[r := Consumed(s', r, period)];
    TotalUpdate(Held(s, period), r, Holds(s', r, period));
    TotalUpdate(Used(s, period), r, Consumed(s', r, period));
  }

  lemma SettleBalances(s: Gen, r: nat, now: Time, period: Period)
    requires ChargedToTheirRow(s) && Enabled(s, Reconcile(r, now)) && period in s.quotas && Balanced(s, period)
    ensures Balanced(Next(s, Reconcile(r, now)), period)
  {
    SettleChanges(s, r, now);
    SettleWeights(s, Next(s, Reconcile(r, now)), r, period);
    RollupAccountsForEverySlot(s.reqs[r].required, RowsOf(s.items, r));
  }

  /** No other step touches a quota row or settles a request. */
  lemma OtherBalances(s: Gen, step: Step, period: Period)
    requires Ladder(s) && Ladder(Next(s, step)) && SettledAsRolledUp(s)
    requires !step.EnsurePeriod? && !step.CreateRequest? && !step.Reconcile?
    requires period in s.quotas && Balanced(s, period)
    ensures period in Next(s, step).quotas && Balanced(Next(s, step), period)
  {
    UsedStable(s, step, period);
    OtherStepsKeepQuotas(s, step);
    SameBalance(s, Next(s, step), period);
  }

  lemma SameBalance(s: Gen, s': Gen, period: Period)
    requires period in s.quotas && Balanced(s, period) && s'.quotas == s.quotas
    requires Used(s', period) == Used(s, period) && Held(s', period) == Held(s, period)
    ensures Balanced(s', period)
  {}

  lemma KeepsInv(s: Gen, step: Step)
    requires Inv(s)
    ensures Inv(Next(s, step))
  {
    KeepsLadder(s, step);
    KeepsChains(s, step);
    KeepsSettledAsRolledUp(s, step);
    KeepsChargedToTheirRow(s, step);
    forall period | period in Next(s, step).quotas ensures Balanced(Next(s, step), period) {
      KeepsBalance(s, step, period);
    }
  }

  lemma KeepsBalance(s: Gen, step: Step, period: Period)
    requires Ladder(s) && Ladder(Next(s, step)) && SettledAsRolledUp(s) && ChargedToTheirRow(s)
    requires period in Next(s, step).quotas && (period in s.quotas ==> Balanced(s, period))
    ensures Balanced(Next(s, step), period)
  {
    if Enabled(s, step) {
      match step
      case EnsurePeriod(_, _, _) => EnsureBalances(s, step, period);
      case CreateRequest(_, _, _) => PeriodExisted(s, step, period); CreateBalances(s, step, period);
      case Reconcile(r, now) => PeriodExisted(s, step, period); SettleBalances(s, r, now, period);
      case _ => PeriodExisted(s, step, period); OtherBalances(s, step, period);
    }
  }

  lemma PeriodExisted(s: Gen, step: Step, period: Period)
    requires !step.EnsurePeriod? && period in Next(s, step).quotas
    requires ChargedToTheirRow(s)
    ensures period in s.quotas
  {}

  lemma InitInv()
    ensures Inv(INIT)
  {}

  lemma {:induction false} RunKeepsInv(s: Gen, steps: seq<Step>)
    requires Inv(s)
    ensures Inv(Exec(s, steps))
  {
    if steps != [] {
      RunKeepsInv(s, steps[..|steps| - 1]);
      KeepsInv(Exec(s, steps[..|steps| - 1]), steps[|steps| - 1]);
    }
  }

  // ---------------------------------------------------------------- over every run

  /** The state a run reaches. */
  ghost function After(steps: seq<Step>): Gen { Exec(INIT, steps) }

  /** Every reachable state keeps the pipeline's invariant. */
  lemma ReachableInv(steps: seq<Step>)
    ensures Inv(After(steps))
  {
    InitInv();
    RunKeepsInv(INIT, steps);
  }

  /** reserved = committed + the required slots of unsettled requests, committed = the succeeded slots of settled
      ones, and 0 <= committed <= reserved <= limit. */
  lemma QuotaConserved(steps: seq<Step>, period: Period)
    requires period in After(steps).quotas
    ensures var s := After(steps); var q := s.quotas[period];
            && q.reserved == q.committed + Total(Held(s, period)) && q.committed == Total(Used(s, period))
            && 0 <= q.committed <= q.reserved <= q.limit
  {
    ReachableInv(steps);
    assert Balanced(After(steps), period);
  }

  lemma {:induction false} TotalAtLeast(ws: seq<nat>, i: nat)
    requires i < |ws|
    ensures Total(ws) >= ws[i]
  {
    if i < |ws| - 1 { TotalAtLeast(ws[..|ws| - 1], i); }
  }

  /** Settling a request whose rollup is ready never raises and never drives a counter below zero: the reservation
      row is the one that was charged, and it still holds at least the slots to release. */
  lemma SettlingNeverRaises(steps: seq<Step>, r: nat, now: Time)
    requires r < |After(steps).reqs| && After(steps).reqs[r].status == InProgress && RollupNow(After(steps), r).status.Some?
    ensures var s := After(steps); var period := s.reqs[r].period;
            && Enabled(s, Reconcile(r, now)) && period in s.quotas
            && s.quotas[period].reserved - RollupNow(s, r).failed >= s.quotas[period].committed + RollupNow(s, r).succeeded >= 0
  {
    ReachableInv(steps);
    var s := After(steps);
    var period := s.reqs[r].period;
    assert QuotaMatches(s, r) && Balanced(s, period);
    assert Held(s, period)[r] == |s.reqs[r].required|;
    TotalAtLeast(Held(s, period), r);
    RollupAccountsForEverySlot(s.reqs[r].required, RowsOf(s.items, r));
  }

  /** From the moment the rollup has a status, no continuation of the run changes it. */
  lemma {:induction false} VerdictsAreFinal(s: Gen, steps: seq<Step>, r: nat)
    requires Inv(s) && r < |s.reqs| && s.reqs[r].status != Queued && RollupNow(s, r).status.Some?
    ensures r < |Exec(s, steps).reqs| && Exec(s, steps).reqs[r].status != Queued
    ensures RollupNow(Exec(s, steps), r) == RollupNow(s, r)
  {
    if steps != [] {
      var before, last := steps[..|steps| - 1], steps[|steps| - 1];
      VerdictsAreFinal(s, before, r);
      RunKeepsInv(s, before);
      var m := Exec(s, before);
      KeepsLadder(m, last);
      RequestsGrow(m, last);
      RollupStable(m, last, r);
    }
  }

  /** A settled request's status is the rollup of its items, now and for ever. */
  lemma SettledStatusIsRollup(steps: seq<Step>, later: seq<Step>, r: nat)
    requires r < |After(steps).reqs| && After(steps).reqs[r].Settled()
    ensures var s' := Exec(After(steps), later);
            r < |s'.reqs| && RollupNow(s', r).status == Some(After(steps).reqs[r].status)
  {
    ReachableInv(steps);
    assert SettledAsRolledUp(After(steps));
    VerdictsAreFinal(After(steps), later, r);
  }

  /** The slot's first attempt ended in this status. */
  ghost predicate FirstAttemptIs(s: Gen, r: nat, slot: Slot, status: ItemStatus) {
    exists i: nat :: IsAttempt(s.items, i, r, slot, 1) && s.items[i].status == status
  }

  lemma VerdictIsFirstAttempt(s: Gen, r: nat, slot: Slot)
    requires Ladder(s) && r < |s.reqs| && s.reqs[r].status != Queued && slot in s.reqs[r].required
    ensures SlotVerdict(RowsOf(s.items, r), slot) == Good <==> FirstAttemptIs(s, r, slot, Succeeded)
    ensures SlotVerdict(RowsOf(s.items, r), slot) == Bad <==> FirstAttemptIs(s, r, slot, Dead)
  {
    var i := FirstAttemptDecides(s, r, slot);
  }

  /** What a settled status says of the items: all succeeded, or all failed, exactly when every required slot's first
      attempt rendered, or died; and no slot of a settled request is still under way. */
  lemma SettledMeans(steps: seq<Step>, r: nat)
    requires r < |After(steps).reqs| && After(steps).reqs[r].Settled()
    ensures var s := After(steps); var q := s.reqs[r];
            && (forall slot | slot in q.required :: FirstAttemptIs(s, r, slot, Succeeded) || FirstAttemptIs(s, r, slot, Dead))
            && (q.status == AllSucceeded <==> forall slot | slot in q.required :: FirstAttemptIs(s, r, slot, Succeeded))
            && (q.status == AllFailed <==> forall slot | slot in q.required :: FirstAttemptIs(s, r, slot, Dead))
  {
    ReachableInv(steps);
    var s := After(steps);
    assert SettledAsRolledUp(s);
    RollupReadsVerdicts(s.reqs[r].required, RowsOf(s.items, r));
    forall slot | slot in s.reqs[r].required
      ensures SlotVerdict(RowsOf(s.items, r), slot) == Good <==> FirstAttemptIs(s, r, slot, Succeeded)
      ensures SlotVerdict(RowsOf(s.items, r), slot) == Bad <==> FirstAttemptIs(s, r, slot, Dead)
    {
      VerdictIsFirstAttempt(s, r, slot);
    }
  }

  /** Attempts of a slot are numbered 1..n without gaps or repeats, n <= 3, and every attempt but the last
      rendered an image that failed QC. */
  lemma AttemptsAreOneToN(steps: seq<Step>, i: nat, k: nat)
    requires i < |After(steps).items| && 1 <= k <= After(steps).items[i].lineage.attempt
    ensures After(steps).items[i].lineage.attempt <= 3
    ensures exists j: nat :: IsTheAttempt(After(steps), j, After(steps).items[i].lineage, k)
  {
    ReachableInv(steps);
    var s := After(steps);
    var l := s.items[i].lineage;
    assert ItemsBelong(s);
    AttemptsBelow(s, i, k);
    var j: nat :| IsAttempt(s.items, j, l.req, l.slot, k);
    AttemptIsUnique(s, j, l, k);
    if k < l.attempt {
      var m := LaterAttemptMeansFailedImage(s, j, i);
      assert FailedImageOf(s, m, j);
    }
    assert IsTheAttempt(s, j, l, k);
  }

  lemma AttemptIsUnique(s: Gen, j: nat, l: Lineage, k: nat)
    requires AttemptsUnique(s.items) && IsAttempt(s.items, j, l.req, l.slot, k)
    ensures forall j' | 0 <= j' < |s.items| && IsAttempt(s.items, j', l.req, l.slot, k) :: j' == j
  {}

  /** Row j is the one attempt number k of the slot; if a later attempt exists, it rendered an image that failed QC. */
  ghost predicate IsTheAttempt(s: Gen, j: nat, l: Lineage, k: nat) {
    && IsAttempt(s.items, j, l.req, l.slot, k)
    && (forall j' | 0 <= j' < |s.items| && IsAttempt(s.items, j', l.req, l.slot, k) :: j' == j)
    && (k < l.attempt ==> s.items[j].status == Succeeded && exists m :: FailedImageOf(s, m, j))
  }

  /** All attempts of a slot share inputs, provider and model; the second repeats the first's template and
      prompt, the third uses another template. */
  lemma {:induction false} LineageOfRetries(s: Gen, i: nat, j: nat)
    requires Ladder(s) && i < |s.items| && j < |s.items|
    requires s.items[i].lineage.req == s.items[j].lineage.req && s.items[i].lineage.slot == s.items[j].lineage.slot
    requires s.items[i].lineage.attempt <= s.items[j].lineage.attempt
    ensures var a, b := s.items[i].lineage, s.items[j].lineage;
            && a.inputs == b.inputs && a.provider == b.provider && a.model == b.model
            && (a.attempt == 1 && b.attempt == 2 ==> a.template == b.template && a.prompt == b.prompt)
            && (a.attempt < b.attempt == 3 ==> a.template != b.template)
    decreases s.items[j].lineage.attempt
  {
    if s.items[i].lineage.attempt < s.items[j].lineage.attempt {
      var p, m := Origin(s, j);
      LineageOfRetries(s, i, p);
    }
  }

  predicate LadderUsedUp(l: Lineage, templates: seq<Template>) {
    l.attempt == 3 || (l.attempt == 2 && forall t | t in templates && t.analysed :: t.id == l.template)
  }

  /** The ladder is used up at attempt three, or at attempt two when no other analysed template exists. */
  lemma LadderEnds(s: Gen, m: Id, templates: seq<Template>)
    requires Ladder(s) && ImageIs(s, m, PendingQc)
    ensures RungAfter(s, m, templates) == None <==> LadderUsedUp(s.items[s.images[m].item].lineage, templates)
  {
    LatestIsOwn(s, m);
    var own := s.items[s.images[m].item];
    AttemptInRange(s, s.images[m].item);
    NoRungIffUsedUp(Attempts(s.items, own.lineage.req, own.lineage.slot), templates);
  }

  lemma AttemptInRange(s: Gen, i: nat)
    requires ItemsBelong(s) && i < |s.items|
    ensures 1 <= s.items[i].lineage.attempt <= 3
  {}

  lemma NoRungIffUsedUp(attempts: seq<Item>, templates: seq<Template>)
    requires attempts != [] && 1 <= Latest(attempts).lineage.attempt <= 3
    ensures NextRung(attempts, templates) == None <==> LadderUsedUp(Latest(attempts).lineage, templates)
  {}

  /** The successor attempt of an image that is still waiting for QC does not exist yet. */
  lemma NotRetriedYet(s: Gen, m: Id)
    requires Ladder(s) && ImageIs(s, m, PendingQc)
    ensures !RetriedBy(s, s, m)
  {
    var i := s.images[m].item;
    var l := s.items[i].lineage;
    if HasAttempt(s.items, l.req, l.slot, l.attempt + 1) {
      var j: nat :| IsAttempt(s.items, j, l.req, l.slot, l.attempt + 1);
      var n := LaterAttemptMeansFailedImage(s, i, j);
      assert false;
    }
  }

  /** An image that fails QC goes to a person exactly when the ladder is used up, and has its successor attempt
      queued exactly when it is not. */
  lemma FailedQcMovesOn(steps: seq<Step>, m: Id, verdict: QcVerdict, auto: bool, templates: seq<Template>, recomposed: Option<string>, now: Time)
    requires !verdict.passed && Enabled(After(steps), RecordQc(m, verdict, auto, templates, recomposed, now))
    ensures MovesOn(After(steps), Next(After(steps), RecordQc(m, verdict, auto, templates, recomposed, now)), m, templates)
  {
    ReachableInv(steps);
    var s := After(steps);
    LadderEnds(s, m, templates);
    QcOutcome(s, m, verdict, auto, templates, recomposed, now);
  }

  /** Either way the checks are recorded, a person is told why, and no other image and no older item changes. */
  lemma FailedQcRecords(s: Gen, m: Id, verdict: QcVerdict, auto: bool, templates: seq<Template>, recomposed: Option<string>, now: Time)
    requires !verdict.passed && Enabled(s, RecordQc(m, verdict, auto, templates, recomposed, now))
    ensures var s' := Next(s, RecordQc(m, verdict, auto, templates, recomposed, now));
            && m in s'.images && s' == s.(images := s.images[m := s'.images[m]], items := s'.items) && s.items <= s'.items
            && s'.images[m] == FailedAs(s.images[m], verdict, s'.items == s.items)
  {
    var s' := Next(s, RecordQc(m, verdict, auto, templates, recomposed, now));
    if RungAfter(s, m, templates).Some? {
      QcAppends(s, m, verdict, auto, templates, recomposed, now);
      assert |s'.items| == |s.items| + 1;
    } else {
      assert s'.items == s.items;
    }
  }

  function FailedAs(image: Image, verdict: QcVerdict, usedUp: bool): Image {
    if !usedUp then image.(status := QcFailed, qcResult := Some(verdict.checks))
    else
      var told := verdict.reason.Some? && verdict.reason.value != "";
      image.(status := HumanReview, qcResult := Some(verdict.checks),
             reason := Some(if told then verdict.reason.value else "QC retry ladder exhausted."))
  }

  ghost predicate MovesOn(s: Gen, s': Gen, m: Id, templates: seq<Template>) {
    && ImageIs(s, m, PendingQc) && m in s'.images && s'.images[m].status in {HumanReview, QcFailed}
    && (s'.images[m].status == HumanReview <==> LadderUsedUp(s.items[s.images[m].item].lineage, templates))
    && (s'.images[m].status == QcFailed <==> RetriedBy(s, s', m))
  }

  lemma QcOutcome(s: Gen, m: Id, verdict: QcVerdict, auto: bool, templates: seq<Template>, recomposed: Option<string>, now: Time)
    requires Ladder(s) && !verdict.passed && Enabled(s, RecordQc(m, verdict, auto, templates, recomposed, now))
    ensures var s' := Next(s, RecordQc(m, verdict, auto, templates, recomposed, now));
            && m in s'.images && s'.images[m].status == (if RungAfter(s, m, templates).None? then HumanReview else QcFailed)
            && (RungAfter(s, m, templates).Some? <==> RetriedBy(s, s', m))
  {
    var step := RecordQc(m, verdict, auto, templates, recomposed, now);
    NotRetriedYet(s, m);
    if RungAfter(s, m, templates).Some? {
      NewlyFailedWasRetried(s, step, m);
    } else {
      assert Next(s, step).items == s.items;
    }
  }

  /** A retry is a pending attempt of the same slot, provider, model and inputs, one higher. The second keeps template
      and prompt; the third takes the first analysed template that is another one, and the recomposed prompt. */
  lemma RetryIsQueued(steps: seq<Step>, m: Id, verdict: QcVerdict, auto: bool, templates: seq<Template>, recomposed: Option<string>, now: Time)
    requires !verdict.passed && Enabled(After(steps), RecordQc(m, verdict, auto, templates, recomposed, now))
    requires !LadderUsedUp(After(steps).items[After(steps).images[m].item].lineage, templates)
    ensures var s := After(steps); var s' := Next(s, RecordQc(m, verdict, auto, templates, recomposed, now));
            var l := s.items[s.images[m].item].lineage;
            exists x :: s'.items == s.items + [x] && x.status == Pending && x.output == None && IsRetryOf(x.lineage, l, templates, recomposed)
  {
    ReachableInv(steps);
    var s := After(steps);
    LadderEnds(s, m, templates);
    var x := RetryOfFailed(s, m, templates, recomposed);
    QcAppends(s, m, verdict, auto, templates, recomposed, now);
  }

  lemma RetryOfFailed(s: Gen, m: Id, templates: seq<Template>, recomposed: Option<string>) returns (x: Item)
    requires Ladder(s) && ImageIs(s, m, PendingQc) && RungAfter(s, m, templates).Some?
    requires !RungAfter(s, m, templates).value.reusePrompt ==> recomposed.Some?
    ensures x == Retry(s.items[s.images[m].item].lineage, RungAfter(s, m, templates).value, recomposed)
    ensures x.status == Pending && x.output == None && IsRetryOf(x.lineage, s.items[s.images[m].item].lineage, templates, recomposed)
  {
    LatestIsOwn(s, m);
    AttemptInRange(s, s.images[m].item);
    var own := s.items[s.images[m].item];
    RungMeans(Attempts(s.items, own.lineage.req, own.lineage.slot), templates);
    x := Retry(own.lineage, RungAfter(s, m, templates).value, recomposed);
  }

  lemma QcAppends(s: Gen, m: Id, verdict: QcVerdict, auto: bool, templates: seq<Template>, recomposed: Option<string>, now: Time)
    requires !verdict.passed && Enabled(s, RecordQc(m, verdict, auto, templates, recomposed, now)) && RungAfter(s, m, templates).Some?
    ensures Next(s, RecordQc(m, verdict, auto, templates, recomposed, now)).items
            == s.items + [Retry(s.items[s.images[m].item].lineage, RungAfter(s, m, templates).value, recomposed)]
  {}

  predicate IsFirstOther(template: Id, templates: seq<Template>, current: Id) {
    exists i :: 0 <= i < |templates| && templates[i].analysed && templates[i].id == template != current
                && forall j | 0 <= j < i :: templates[j].id == current || !templates[j].analysed
  }

  predicate IsRetryOf(x: Lineage, l: Lineage, templates: seq<Template>, recomposed: Option<string>) {
    && x.req == l.req && x.slot == l.slot && x.provider == l.provider && x.model == l.model && x.inputs == l.inputs
    && x.attempt == l.attempt + 1
    && (x.attempt == 2 ==> x.template == l.template && x.prompt == l.prompt)
    && (x.attempt == 3 ==> IsFirstOther(x.template, templates, l.template) && recomposed == Some(x.prompt))
  }

  lemma RungMeans(attempts: seq<Item>, templates: seq<Template>)
    requires attempts != [] && 1 <= Latest(attempts).lineage.attempt <= 3 && NextRung(attempts, templates).Some?
    ensures var l, rung := Latest(attempts).lineage, NextRung(attempts, templates).value;
            && rung.attempt == l.attempt + 1 && rung.attempt <= 3 && (rung.reusePrompt <==> rung.attempt == 2)
            && (rung.attempt == 2 ==> rung.template == l.template)
            && (rung.attempt == 3 ==> IsFirstOther(rung.template, templates, l.template))
  {}

  /** What is on record of an image's review, status by status. */
  predicate ReviewFits(image: Image) {
    && (image.qcResult.None? <==> image.status == PendingQc)
    && (image.approvedAt.Some? <==> image.status == Approved)
    && (image.approvedBy.Some? ==> image.status == Approved)
    && (image.reason.Some? <==> image.status in {HumanReview, Rejected})
  }

  lemma ReviewFitsStep(s: Gen, step: Step, m: Id)
    requires (m in s.images ==> ReviewFits(s.images[m])) && m in Next(s, step).images
    ensures ReviewFits(Next(s, step).images[m])
  {
    if step.RecordQc? && Enabled(s, step) && step.image == m { VerdictFits(s, step); }
  }

  lemma VerdictFits(s: Gen, step: Step)
    requires step.RecordQc? && Enabled(s, step) && ReviewFits(s.images[step.image])
    ensures step.image in Next(s, step).images && ReviewFits(Next(s, step).images[step.image])
  {}

  /** In every run checks, approval and reasons are on record exactly in the statuses they belong to. */
  lemma {:induction false} ReviewsFit(steps: seq<Step>, m: Id)
    requires m in After(steps).images
    ensures ReviewFits(After(steps).images[m])
  {
    if steps != [] {
      var before := After(steps[..|steps| - 1]);
      if m in before.images { ReviewsFit(steps[..|steps| - 1], m); }
      ReviewFitsStep(before, steps[|steps| - 1], m);
    }
  }

  /** An image that passes QC is approved at once, by nobody, if and only if approval is not required, and otherwise
      waits for a person; its checks are recorded and nothing else changes. */
  lemma PassedQcMovesOn(steps: seq<Step>, m: Id, verdict: QcVerdict, auto: bool, templates: seq<Template>, recomposed: Option<string>, now: Time)
    requires verdict.passed && ImageIs(After(steps), m, PendingQc)
    ensures var s := After(steps); var s' := Next(s, RecordQc(m, verdict, auto, templates, recomposed, now));
            && s' == s.(images := s'.images) && s'.images.Keys == s.images.Keys
            && (forall n | n in s.images && n != m :: s'.images[n] == s.images[n])
            && s'.images[m].(status := PendingQc, qcResult := None, approvedAt := None) == s.images[m]
            && s'.images[m].qcResult == Some(verdict.checks) && s'.images[m].approvedBy == None
            && (s'.images[m].status == Approved <==> auto) && (s'.images[m].status == PendingApproval <==> !auto)
            && s'.images[m].approvedAt == if auto then Some(now) else None
  {
    ReviewsFit(steps, m);
  }

  /** From any image, the supersede chain leads to the one live image of its variant and slot. */
  lemma ImageHistoryEndsLive(steps: seq<Step>, a: Id) returns (z: Id)
    requires a in After(steps).images
    ensures IsEndOfHistory(After(steps).images, a, z)
  {
    ReachableInv(steps);
    z := HistoryOf(After(steps).images, a);
  }

  ghost predicate IsEndOfHistory(images: map<Id, Image>, a: Id, z: Id)
    requires a in images
  {
    && z in images && LeadsTo(Links(images), a, z) && images[z].supersededBy == None && images[z].owner == images[a].owner
    && (forall b | b in images && images[b].supersededBy == None && images[b].owner == images[a].owner :: b == z)
    && forall n: nat | n > 0 :: Walk(Links(images), a, n) != Some(a)
  }

  lemma HistoryOf(images: map<Id, Image>, a: Id) returns (z: Id)
    requires WellFormed(Links(images)) && a in images
    ensures IsEndOfHistory(images, a, z)
  {
    z := HistoryEndsAtLiveRow(Links(images), a);
    forall b | b in images && images[b].supersededBy == None && images[b].owner == images[a].owner ensures b == z {
      assert IsLive(Links(images), b);
    }
    forall n: nat | n > 0 ensures Walk(Links(images), a, n) != Some(a) { HistoryIsAcyclic(Links(images), a, n); }
  }
}
