/** What the publishing protocol guarantees in every run, and where it gets stuck. */
module PublishingGuarantees {
  import opened Base
  import opened TaskQueue
  import opened RateLimiting
  import opened Publications
  import opened PublishingProtocol
  import Drafts = ContentDrafts

  /** The state a run reaches. */
  ghost function After(limit: int, steps: seq<Step>): Sys { Exec(Init(limit), steps) }

  /** Every reachable state keeps the protocol's invariant. */
  lemma ReachableInv(limit: int, steps: seq<Step>)
    ensures Inv(After(limit, steps))
  {
    InitInv(limit);
    RunKeepsInv(Init(limit), steps);
  }

  // ---------------------------------------------------------------- at most one post

  /** Every provider call carries the key its publication got at creation, so each publication creates at
      most one post, and a published row holds the post that one of its own calls created. */
  lemma AtMostOnePost(limit: int, steps: seq<Step>)
    ensures CallsCarryTheKey(After(limit, steps)) && OnePostEach(After(limit, steps)) && PublishedByOwnCall(After(limit, steps))
  {
    ReachableInv(limit, steps);
    OnePostPerKey(After(limit, steps));
  }

  ghost predicate OnePostEach(s: Sys) {
    forall i, j | 0 <= i < |s.calls| && 0 <= j < |s.calls| && s.calls[i].pub == s.calls[j].pub
                  && s.calls[i].created.Some? && s.calls[j].created.Some? :: i == j
  }

  ghost predicate HasOwnPost(s: Sys, p: Id)
    requires p in s.pubs
  {
    exists i :: 0 <= i < |s.calls| && s.calls[i].pub == p && s.calls[i].created.Some? && s.pubs[p].postId == s.calls[i].created
  }

  ghost predicate PublishedByOwnCall(s: Sys) { forall p | p in s.pubs && s.pubs[p].status == Published :: HasOwnPost(s, p) }

  lemma OnePostPerKey(s: Sys)
    requires KeysDistinct(s) && CallsCarryTheKey(s) && PostsMatchCalls(s) && PublishedHoldsPost(s)
    ensures OnePostEach(s) && PublishedByOwnCall(s)
  {
    forall p | p in s.pubs && s.pubs[p].status == Published ensures HasOwnPost(s, p) {
      assert RowHoldsPost(s, p);
      assert HasCreator(s.calls, s.pubs[p].key);
      var i :| 0 <= i < |s.calls| && s.calls[i].key == s.pubs[p].key && s.calls[i].created.Some?;
      assert s.calls[i].pub == p;
    }
  }

  /** The key of a row is the one it was created with, whatever happens to it. */
  lemma {:induction false} KeyNeverChanges(s: Sys, steps: seq<Step>, p: Id)
    requires p in s.pubs
    ensures p in Exec(s, steps).pubs && Exec(s, steps).pubs[p].key == s.pubs[p].key
    ensures Exec(s, steps).pubs[p].draft == s.pubs[p].draft
  {
    if steps != [] {
      KeyNeverChanges(s, steps[..|steps| - 1], p);
      RowsKeepIdentity(Exec(s, steps[..|steps| - 1]), steps[|steps| - 1]);
    }
  }

  /** Scheduled or cancelled without a failed attempt: the provider was never called for the row. */
  lemma NoAttemptNoCall(limit: int, steps: seq<Step>, p: Id)
    requires p in After(limit, steps).pubs && After(limit, steps).pubs[p].attempts == 0
    requires After(limit, steps).pubs[p].status in {Scheduled, Cancelled}
    ensures forall i | 0 <= i < |After(limit, steps).calls| :: After(limit, steps).calls[i].pub != p
  {
    ReachableInv(limit, steps);
  }

  predicate IsTerminal(s: Sys, p: Id) { p in s.pubs && s.pubs[p].Terminal() }

  lemma TerminalStep(s: Sys, step: Step, p: Id)
    requires Inv(s) && IsTerminal(s, p)
    ensures p in Next(s, step).pubs && Next(s, step).pubs[p] == s.pubs[p]
    ensures |s.calls| <= |Next(s, step).calls|
    ensures forall i | |s.calls| <= i < |Next(s, step).calls| :: Next(s, step).calls[i].pub != p
  {
    TerminalRowStep(s, step, p);
    forall i | |s.calls| <= i < |Next(s, step).calls| ensures Next(s, step).calls[i].pub != p {
      CallsGrow(s, step, i);
    }
  }

  lemma TerminalRowStep(s: Sys, step: Step, p: Id)
    requires WorkersHoldRows(s) && IsTerminal(s, p)
    ensures p in Next(s, step).pubs && Next(s, step).pubs[p] == s.pubs[p]
    ensures |s.calls| <= |Next(s, step).calls|
  {}

  /** Published, dead and cancelled rows never change again, and no call starts for them. */
  lemma {:induction false} TerminalIsFinal(s: Sys, steps: seq<Step>, p: Id)
    requires Inv(s) && IsTerminal(s, p)
    ensures p in Exec(s, steps).pubs && Exec(s, steps).pubs[p] == s.pubs[p]
    ensures |s.calls| <= |Exec(s, steps).calls|
    ensures forall i | |s.calls| <= i < |Exec(s, steps).calls| :: Exec(s, steps).calls[i].pub != p
  {
    if steps != [] {
      var before := steps[..|steps| - 1];
      TerminalIsFinal(s, before, p);
      RunKeepsInv(s, before);
      var m := Exec(s, before);
      TerminalStep(m, steps[|steps| - 1], p);
      forall i | |s.calls| <= i < |Exec(s, steps).calls| ensures Exec(s, steps).calls[i].pub != p {
        if i < |m.calls| { CallsGrow(m, steps[|steps| - 1], i); }
      }
    }
  }

  // ---------------------------------------------------------------- one attempt in flight

  /** Two open workers never share a row, and never share a channel and variant either. */
  lemma OneAttemptInFlight(limit: int, steps: seq<Step>, v: Id, w: Id)
    requires var s := After(limit, steps); v in s.workers && w in s.workers && v != w
    ensures var s := After(limit, steps); var p, q := s.workers[v].pub, s.workers[w].pub;
            && p in s.pubs && q in s.pubs && p != q
            && (s.pubs[p].variant != s.pubs[q].variant || s.pubs[p].channel != s.pubs[q].channel)
  {
    ReachableInv(limit, steps);
    var s := After(limit, steps);
    assert OneWorkerPerRow(s) && SingleFlight(s) && WorkersHoldRows(s);
    assert HoldsRow(s, v) && HoldsRow(s, w);
  }

  /** An open worker's last transaction never raises: its row is there and is still dispatching. */
  lemma SettlingNeverRaises(limit: int, steps: seq<Step>, w: Id, now: Time, text: string, delay: nat)
    requires w in After(limit, steps).workers
    ensures var s := After(limit, steps);
            match s.workers[w].phase
            case Posted(_) => Enabled(s, Complete(w, now))
            case Raised => Enabled(s, Fail(w, text, now, delay))
            case RateLimited(_) => Enabled(s, Defer(w, text))
            case Cleared(_) => Enabled(s, Refuse(w))
            case Claimed => Enabled(s, CheckRate(w, now))
  {
    ReachableInv(limit, steps);
    assert HoldsRow(After(limit, steps), w);
  }

  // ---------------------------------------------------------------- retries

  /** A failed row has a pending job, and claiming that job once it is due dispatches the row. */
  lemma NoLostRetry(limit: int, steps: seq<Step>, p: Id) returns (j: Id)
    requires p in After(limit, steps).pubs && After(limit, steps).pubs[p].status == Failed
    ensures var s := After(limit, steps); j in s.jobs && s.jobs[j].status == JobPending && s.jobs[j].payload == p
    ensures forall w: Id, now: Time, delay: nat ::
              var s := After(limit, steps);
              w !in s.workers && now >= s.jobs[j].runAt ==>
                var s' := Next(s, Start(w, j, now, delay));
                p in s'.pubs && s'.pubs[p].status == Dispatching && w in s'.workers && s'.workers[w].pub == p
  {
    ReachableInv(limit, steps);
    var s := After(limit, steps);
    assert HasRetry(s, p);
    j :| IsRetry(s, j, p);
  }

  predicate AccountsForAttempts(job: Job<Id>) {
    && job.maxAttempts == 5
    && (job.status in {JobPending, JobRunning} ==> job.attempts < job.maxAttempts)
    && (job.status == JobDead ==> job.attempts >= job.maxAttempts)
  }

  lemma AttemptsAccountedStep(s: Sys, step: Step, j: Id)
    requires (j in s.jobs ==> AccountsForAttempts(s.jobs[j])) && j in Next(s, step).jobs
    ensures AccountsForAttempts(Next(s, step).jobs[j])
  {}

  /** In every run a pending or running job has attempts left, and a job that has not succeeded is dead exactly when
      it has used up its attempts. */
  lemma {:induction false} DeadIffUsedUp(limit: int, steps: seq<Step>, j: Id)
    requires j in After(limit, steps).jobs
    ensures var job := After(limit, steps).jobs[j];
            && (job.status in {JobPending, JobRunning} ==> job.attempts < job.maxAttempts)
            && (job.status != JobSucceeded ==> (job.status == JobDead <==> job.attempts >= job.maxAttempts))
  {
    AttemptsAccounted(limit, steps, j);
  }

  lemma {:induction false} AttemptsAccounted(limit: int, steps: seq<Step>, j: Id)
    requires j in After(limit, steps).jobs
    ensures AccountsForAttempts(After(limit, steps).jobs[j])
  {
    if steps != [] {
      var before := After(limit, steps[..|steps| - 1]);
      if j in before.jobs { AttemptsAccounted(limit, steps[..|steps| - 1], j); }
      AttemptsAccountedStep(before, steps[|steps| - 1], j);
    }
  }

  // ---------------------------------------------------------------- due times

  /** The time a new row is created for: the one asked for, or the moment of its creation. */
  function CreatedFor(create: Step): Time
    requires create.Create?
  {
    match create.dueAt case None => create.now case Some(at) => at
  }

  /** The row has not been released yet: nothing but its due time or a cancellation lies between it and its creation. */
  ghost predicate Waits(s: Sys, p: Id, due: Time) {
    && p in s.pubs && s.pubs[p].status in {Scheduled, Cancelled} && s.pubs[p].dueAt == due
    && (forall j | j in s.jobs :: s.jobs[j].payload != p) && !Held(s, p)
  }

  ghost predicate ReleasesRow(s: Sys, step: Step, p: Id) { step.Release? && step.id == p && Enabled(s, step) }

  lemma CreatedRowWaits(s: Sys, create: Step)
    requires Inv(s) && create.Create? && Enabled(s, create)
    ensures Waits(Next(s, create), create.id, CreatedFor(create))
  {
    forall w | w in s.workers ensures s.workers[w].pub != create.id { assert HoldsRow(s, w); }
  }

  lemma WaitsOn(s: Sys, step: Step, p: Id, due: Time)
    requires Waits(s, p, due) && !ReleasesRow(s, step, p)
    ensures Waits(Next(s, step), p, due)
  {
    var s' := Next(s, step);
    WaitingRowStays(s, step, p);
    forall j | j in s'.jobs ensures s'.jobs[j].payload != p { WaitingRowGetsNoJob(s, step, p, j); }
    forall w | w in s'.workers ensures s'.workers[w].pub != p { assert w in s.workers ==> s.workers[w].pub != p; }
  }

  lemma WaitingRowStays(s: Sys, step: Step, p: Id)
    requires p in s.pubs && s.pubs[p].status in {Scheduled, Cancelled} && !ReleasesRow(s, step, p) && !Held(s, p)
    requires forall j | j in s.jobs :: s.jobs[j].payload != p
    ensures var s' := Next(s, step);
            p in s'.pubs && s'.pubs[p].status in {Scheduled, Cancelled} && s'.pubs[p].dueAt == s.pubs[p].dueAt
  {
    forall w | w in s.workers ensures s.workers[w].pub != p {}
  }

  lemma WaitingRowGetsNoJob(s: Sys, step: Step, p: Id, j: Id)
    requires !ReleasesRow(s, step, p) && (forall i | i in s.jobs :: s.jobs[i].payload != p) && j in Next(s, step).jobs
    ensures Next(s, step).jobs[j].payload != p
  {}

  ghost predicate NeverReleased(s: Sys, steps: seq<Step>, p: Id) {
    forall k | 0 <= k < |steps| :: !ReleasesRow(Exec(s, steps[..k]), steps[k], p)
  }

  lemma {:induction false} WaitsThroughout(s: Sys, steps: seq<Step>, p: Id, due: Time)
    requires Waits(s, p, due) && NeverReleased(s, steps, p)
    ensures Waits(Exec(s, steps), p, due)
  {
    if steps != [] {
      var before := steps[..|steps| - 1];
      forall k | 0 <= k < |before| ensures !ReleasesRow(Exec(s, before[..k]), before[k], p) {
        assert before[..k] == steps[..k] && before[k] == steps[k];
      }
      WaitsThroughout(s, before, p, due);
      assert steps[..|before|] == before;
      WaitsOn(Exec(s, before), steps[|before|], p, due);
    }
  }

  /** Whatever happens after its creation, a row's first release is not enabled before the time it was created for. */
  lemma FirstReleaseWaits(s: Sys, create: Step, steps: seq<Step>, release: Step)
    requires Inv(s) && create.Create? && Enabled(s, create) && NeverReleased(Next(s, create), steps, create.id)
    requires ReleasesRow(Exec(Next(s, create), steps), release, create.id)
    ensures release.now >= CreatedFor(create)
  {
    CreatedRowWaits(s, create);
    WaitsThroughout(Next(s, create), steps, create.id, CreatedFor(create));
  }

  /** The poller's clock does not run backwards. */
  predicate ClockRunsForward(steps: seq<Step>) {
    forall i, j | 0 <= i < j < |steps| && steps[i].Release? && steps[j].Release? :: steps[i].now <= steps[j].now
  }

  /** Nor is any later release, as long as the poller's clock does not run backwards. */
  lemma {:induction false} NeverReleasedEarly(s: Sys, create: Step, steps: seq<Step>, n: nat)
    requires Inv(s) && create.Create? && Enabled(s, create) && ClockRunsForward(steps)
    requires n < |steps| && ReleasesRow(Exec(Next(s, create), steps[..n]), steps[n], create.id)
    ensures steps[n].now >= CreatedFor(create)
    decreases n
  {
    var s1 := Next(s, create);
    if k :| 0 <= k < n && ReleasesRow(Exec(s1, steps[..k]), steps[k], create.id) {
      NeverReleasedEarly(s, create, steps, k);
      assert steps[k].now <= steps[n].now;
    } else {
      forall k | 0 <= k < |steps[..n]| ensures !ReleasesRow(Exec(s1, steps[..n][..k]), steps[..n][k], create.id) {
        assert steps[..n][..k] == steps[..k];
      }
      FirstReleaseWaits(s, create, steps[..n], steps[n]);
    }
  }

  /** The poller: nothing brings a row's due time forward while the row stays scheduled. */
  lemma DueStep(s: Sys, step: Step, p: Id)
    requires p in s.pubs && s.pubs[p].status == Scheduled
    requires p in Next(s, step).pubs && Next(s, step).pubs[p].status == Scheduled
    ensures Next(s, step).pubs[p].dueAt >= s.pubs[p].dueAt
  {}

  ghost predicate ScheduledAfter(s: Sys, steps: seq<Step>, k: nat, p: Id)
    requires k <= |steps|
  {
    p in Exec(s, steps[..k]).pubs && Exec(s, steps[..k]).pubs[p].status == Scheduled
  }

  ghost predicate StaysScheduled(s: Sys, steps: seq<Step>, p: Id) {
    forall k: nat | k <= |steps| :: ScheduledAfter(s, steps, k, p)
  }

  lemma {:induction false} DueNeverMovesBack(s: Sys, steps: seq<Step>, p: Id)
    requires StaysScheduled(s, steps, p)
    ensures p in s.pubs && p in Exec(s, steps).pubs && Exec(s, steps).pubs[p].dueAt >= s.pubs[p].dueAt
  {
    assert ScheduledAfter(s, steps, 0, p) && steps[..0] == [];
    if steps != [] {
      var before := steps[..|steps| - 1];
      forall k: nat | k <= |before| ensures ScheduledAfter(s, before, k, p) {
        assert ScheduledAfter(s, steps, k, p) && before[..k] == steps[..k];
      }
      DueNeverMovesBack(s, before, p);
      assert ScheduledAfter(s, steps, |steps|, p) && steps[..|steps|] == steps;
      assert ScheduledAfter(s, steps, |before|, p);
      DueStep(Exec(s, before), steps[|steps| - 1], p);
    }
  }

  /** Two releases of one row with no dispatch between them are at least the grace period apart. */
  lemma ReleasesAreSpaced(s: Sys, first: Step, between: seq<Step>, second: Step)
    requires first.Release? && second.Release? && first.id == second.id
    requires Enabled(s, first) && StaysScheduled(Next(s, first), between, first.id)
    requires Enabled(Exec(Next(s, first), between), second)
    ensures second.now >= first.now + GRACE
  {
    DueNeverMovesBack(Next(s, first), between, first.id);
  }

  /** A rate-limited row is due again exactly when the next window starts, which is later than the refused
      check, and the poller does not release it before. */
  lemma DeferralWaitsForNextWindow(s: Sys, w: Id, checked: Time, s1: Sys, gap: seq<Step>, s2: Sys, reason: string, s3: Sys,
                                   between: seq<Step>, release: Step)
    requires Inv(s) && Enabled(s, CheckRate(w, checked)) && s1 == Next(s, CheckRate(w, checked))
    requires !Allowed(s.limiter, s.workers[w].channel, s.limit, DAY, checked)
    requires s2 == Exec(s1, gap) && w in s1.workers && w in s2.workers && s2.workers[w] == s1.workers[w]
    requires s3 == Next(s2, Defer(w, reason)) && StaysScheduled(s3, between, s.workers[w].pub)
    requires release.Release? && release.id == s.workers[w].pub && Enabled(Exec(s3, between), release)
    ensures s.workers[w].pub in s3.pubs && s3.pubs[s.workers[w].pub].dueAt == FixedWindowStart(checked, DAY) + DAY
    ensures checked < FixedWindowStart(checked, DAY) + DAY <= release.now
  {
    KeepsInv(s, CheckRate(w, checked));
    RunKeepsInv(s1, gap);
    assert s1.workers[w] == s.workers[w].(phase := RateLimited(FixedWindowStart(checked, DAY) + DAY));
    DeferSetsDue(s2, w, reason);
    DueNeverMovesBack(s3, between, s.workers[w].pub);
    WindowCharacterised(checked, DAY, FixedWindowStart(checked, DAY));
  }

  lemma DeferSetsDue(s: Sys, w: Id, reason: string)
    requires WorkersHoldRows(s) && w in s.workers && s.workers[w].phase.RateLimited?
    ensures var p, s' := s.workers[w].pub, Next(s, Defer(w, reason)); p in s'.pubs && s'.pubs[p].dueAt == s.workers[w].phase.windowEnd
  {
    assert HoldsRow(s, w);
  }

  /** The calls for rows of one channel that were let through at an instant of the interval. */
  ghost function CallsIn(s: Sys, channel: Id, from: Time, until: Time): set<nat> {
    set i | 0 <= i < |s.calls| && s.calls[i].pub in s.pubs && s.pubs[s.calls[i].pub].channel == channel
            && s.calls[i].ticket < |s.limiter.grants| && from <= s.limiter.grants[s.calls[i].ticket].at < until
  }

  lemma {:induction false} TicketsCountCalls(s: Sys, ids: set<nat>, places: set<nat>)
    requires forall i | i in ids :: i < |s.calls| && s.calls[i].ticket in places
    requires forall i, j | i in ids && j in ids && s.calls[i].ticket == s.calls[j].ticket :: i == j
    ensures |ids| <= |places|
  {
    if ids != {} {
      var i :| i in ids;
      TicketsCountCalls(s, ids - {i}, places - {s.calls[i].ticket});
    }
  }

  /** Every provider call was let through by a grant of its own for its row's channel, at some instant of the log; and
      no day-long interval, wherever it starts, lets more than twice the limit of a channel's calls through. */
  lemma CallsArePaced(limit: int, steps: seq<Step>, channel: Id, from: Time)
    ensures var s := After(limit, steps);
      && (forall i | 0 <= i < |s.calls| ::
            s.calls[i].pub in s.pubs && Grants(s, s.calls[i].ticket, s.pubs[s.calls[i].pub].channel))
      && (forall i, j | 0 <= i < |s.calls| && 0 <= j < |s.calls| && s.calls[i].ticket == s.calls[j].ticket :: i == j)
      && |CallsIn(s, channel, from, from + DAY)| <= 2 * Max(limit, 1)
  {
    ReachableInv(limit, steps);
    var s := After(limit, steps);
    LimitStays(limit, steps);
    BurstBound(s.limiter, s.limit, DAY, channel, from);
    CountsPlaces(s.limiter.grants, channel, from, from + DAY);
    TicketsCountCalls(s, CallsIn(s, channel, from, from + DAY), PlacesIn(s.limiter.grants, channel, from, from + DAY));
  }

  lemma {:induction false} LimitStays(limit: int, steps: seq<Step>)
    ensures After(limit, steps).limit == limit
  {
    if steps != [] {
      LimitStays(limit, steps[..|steps| - 1]);
      ReachableInv(limit, steps[..|steps| - 1]);
      KeepsTally(After(limit, steps[..|steps| - 1]), steps[|steps| - 1]);
    }
  }

  /** In every run a worker is cleared to call exactly when its channel has fewer grants in the current window than the
      larger of the limit and 1; otherwise it is told when the next window starts. */
  lemma ClearedIffBelowLimit(limit: int, steps: seq<Step>, w: Id, now: Time)
    requires w in After(limit, steps).workers && After(limit, steps).workers[w].phase == Claimed
    ensures var s := After(limit, steps); var s' := Next(s, CheckRate(w, now)); var start := FixedWindowStart(now, DAY);
            && w in s'.workers
            && s'.workers[w].phase == if InWindow(s.limiter.grants, s.workers[w].channel, start, DAY) < Max(limit, 1)
                                      then Cleared(|s.limiter.grants|) else RateLimited(start + DAY)
  {
    ReachableInv(limit, steps);
    LimitStays(limit, steps);
    ClearedHere(After(limit, steps), w, now);
  }

  lemma ClearedHere(s: Sys, w: Id, now: Time)
    requires Tallied(s.limiter, s.limit, DAY) && w in s.workers && s.workers[w].phase == Claimed
    ensures var s' := Next(s, CheckRate(w, now)); var start := FixedWindowStart(now, DAY);
            && w in s'.workers
            && s'.workers[w].phase == if InWindow(s.limiter.grants, s.workers[w].channel, start, DAY) < Max(s.limit, 1)
                                      then Cleared(|s.limiter.grants|) else RateLimited(start + DAY)
  {
    AllowedIffBelowLimit(s.limiter, s.workers[w].channel, s.limit, DAY, now);
  }

  // ---------------------------------------------------------------- cited drafts

  /** Once a publication cites a draft, the draft is approved and its copy is the same in every later state. */
  lemma {:induction false} CitedDraftIsFrozen(s: Sys, steps: seq<Step>, p: Id)
    requires Inv(s) && p in s.pubs && s.pubs[p].draft.Some?
    ensures var d := s.pubs[p].draft.value; var s' := Exec(s, steps);
            && d in s.drafts && d in s'.drafts
            && s'.drafts[d].status == Drafts.Approved && s'.drafts[d].copy == s.drafts[d].copy
            && p in s'.pubs && s'.pubs[p].draft == Some(d)
  {
    var d := s.pubs[p].draft.value;
    if steps != [] {
      var before := steps[..|steps| - 1];
      CitedDraftIsFrozen(s, before, p);
      var m, last := Exec(s, before), steps[|steps| - 1];
      KeyNeverChanges(s, steps, p);
      ApprovedStays(m, last, d);
    }
  }

  lemma ApprovedStays(s: Sys, step: Step, d: Id)
    requires d in s.drafts && s.drafts[d].status == Drafts.Approved
    ensures d in Next(s, step).drafts
    ensures Next(s, step).drafts[d].status == Drafts.Approved && Next(s, step).drafts[d].copy == s.drafts[d].copy
  {
    if step.DraftStep? { Drafts.NextGrows(s.drafts, step.action); }
  }

  /** A draft that was generated past an automatic gate can be cited at once. */
  lemma FreshDraftIsCitable(limit: int, owner: Drafts.DraftOwner, copy: Drafts.Copy, key: Key, variant: Id, channel: Id, now: Time)
    ensures var generate := DraftStep(Drafts.CompleteGeneration(owner, copy, true, true, 0, now));
            var s := After(limit, [generate, Create(0, key, variant, channel, Some(0), true, None, now)]);
            && 0 in s.drafts && s.drafts[0].status == Drafts.Approved && s.drafts[0].copy == copy
            && 0 in s.pubs && s.pubs[0].draft == Some(0)
  {
    var generate := DraftStep(Drafts.CompleteGeneration(owner, copy, true, true, 0, now));
    ExecTwo(Init(limit), generate, Create(0, key, variant, channel, Some(0), true, None, now));
    assert Drafts.Next(map[], generate.action) == map[0 := Drafts.Gate(owner, copy, None, true, now)];
  }

  // ---------------------------------------------------------------- orphaned rows

  ghost predicate Held(s: Sys, p: Id) { exists w :: w in s.workers && s.workers[w].pub == p }

  lemma OrphanStep(s: Sys, step: Step, p: Id)
    requires WorkersHoldRows(s) && p in s.pubs && s.pubs[p].status == Dispatching && !Held(s, p)
    ensures p in Next(s, step).pubs && Next(s, step).pubs[p] == s.pubs[p] && !Held(Next(s, step), p)
  {
    OrphanRowStep(s, step, p);
    forall w | w in Next(s, step).workers ensures Next(s, step).workers[w].pub != p { WorkerOfOther(s, step, p, w); }
  }

  lemma OrphanRowStep(s: Sys, step: Step, p: Id)
    requires WorkersHoldRows(s) && p in s.pubs && s.pubs[p].status == Dispatching && !Held(s, p)
    ensures p in Next(s, step).pubs && Next(s, step).pubs[p] == s.pubs[p]
  {}

  lemma WorkerOfOther(s: Sys, step: Step, p: Id, w: Id)
    requires p in s.pubs && s.pubs[p].status == Dispatching && !Held(s, p) && w in Next(s, step).workers
    ensures Next(s, step).workers[w].pub != p
  {
    assert w in s.workers ==> s.workers[w].pub != p;
  }

  lemma {:induction false} OrphanStays(s: Sys, steps: seq<Step>, p: Id)
    requires Inv(s) && p in s.pubs && s.pubs[p].status == Dispatching && !Held(s, p)
    ensures p in Exec(s, steps).pubs && Exec(s, steps).pubs[p] == s.pubs[p] && !Held(Exec(s, steps), p)
  {
    if steps != [] {
      var before := steps[..|steps| - 1];
      OrphanStays(s, before, p);
      RunKeepsInv(s, before);
      OrphanStep(Exec(s, before), steps[|steps| - 1], p);
    }
  }

  /** The steps that close an open worker from where it stands. */
  function WayOut(s: Sys, w: Id): seq<Step>
    requires w in s.workers
  {
    match s.workers[w].phase
    case Posted(_) => [Complete(w, 0)]
    case Raised => [Fail(w, "", 0, 0)]
    case RateLimited(_) => [Defer(w, "")]
    case Cleared(_) => [Refuse(w), Fail(w, "", 0, 0)]
    case Claimed =>
      if Allowed(s.limiter, s.workers[w].channel, s.limit, DAY, 0) then [CheckRate(w, 0), Refuse(w), Fail(w, "", 0, 0)]
      else [CheckRate(w, 0), Defer(w, "")]
  }

  lemma ExecTwo(s: Sys, a: Step, b: Step)
    ensures Exec(s, [a, b]) == Next(Next(s, a), b)
  {
    assert [a, b][..1] == [a] && [a][..0] == [];
    assert Exec(s, [a]) == Next(Exec(s, []), a);
  }

  lemma ExecThree(s: Sys, a: Step, b: Step, c: Step)
    ensures Exec(s, [a, b, c]) == Next(Next(Next(s, a), b), c)
  {
    assert [a, b, c][..2] == [a, b];
    ExecTwo(s, a, b);
  }

  lemma SettlingLeavesDispatching(s: Sys, w: Id, settle: Step)
    requires WorkersHoldRows(s) && w in s.workers && Enabled(s, settle)
    requires (settle.Complete? || settle.Fail? || settle.Defer?) && settle.worker == w
    ensures s.workers[w].pub in Next(s, settle).pubs
    ensures Next(s, settle).pubs[s.workers[w].pub].status != Dispatching
  {}

  /** One more step inside the worker: the row is untouched and the worker still holds it. */
  lemma InnerStep(s: Sys, w: Id, step: Step)
    requires WorkersHoldRows(s) && w in s.workers && Enabled(s, step)
    requires (step.Refuse? || step.CheckRate?) && step.worker == w
    ensures WorkersHoldRows(Next(s, step)) && w in Next(s, step).workers
    ensures Next(s, step).workers[w].pub == s.workers[w].pub && At(Next(s, step), w, Dispatching)
    ensures step.Refuse? ==> Next(s, step).workers[w].phase == Raised
    ensures step.CheckRate? ==>
              if Allowed(s.limiter, s.workers[w].channel, s.limit, DAY, step.now) then Next(s, step).workers[w].phase.Cleared?
              else Next(s, step).workers[w].phase.RateLimited?
  {}

  lemma ExecOne(s: Sys, a: Step)
    ensures Exec(s, [a]) == Next(s, a)
  {
    assert [a][..0] == [];
    assert Exec(s, []) == s;
  }

  ghost predicate LeavesDispatching(s: Sys, w: Id, steps: seq<Step>)
    requires w in s.workers
  {
    s.workers[w].pub in Exec(s, steps).pubs && Exec(s, steps).pubs[s.workers[w].pub].status != Dispatching
  }

  lemma OutInOne(s: Sys, w: Id, settle: Step)
    requires WorkersHoldRows(s) && w in s.workers && Enabled(s, settle)
    requires (settle.Complete? || settle.Fail? || settle.Defer?) && settle.worker == w
    ensures LeavesDispatching(s, w, [settle])
  {
    ExecOne(s, settle);
    SettlingLeavesDispatching(s, w, settle);
  }

  lemma OutInTwo(s: Sys, w: Id, first: Step, settle: Step)
    requires WorkersHoldRows(s) && w in s.workers && Enabled(s, first) && (first.Refuse? || first.CheckRate?) && first.worker == w
    requires Enabled(Next(s, first), settle) && (settle.Complete? || settle.Fail? || settle.Defer?) && settle.worker == w
    ensures LeavesDispatching(s, w, [first, settle])
  {
    ExecTwo(s, first, settle);
    InnerStep(s, w, first);
    SettlingLeavesDispatching(Next(s, first), w, settle);
  }

  lemma WayOutLeavesDispatching(s: Sys, w: Id)
    requires WorkersHoldRows(s) && w in s.workers
    ensures LeavesDispatching(s, w, WayOut(s, w))
  {
    assert HoldsRow(s, w);
    var out := WayOut(s, w);
    if |out| == 1 {
      OutInOne(s, w, out[0]);
      assert out == [out[0]];
    } else if |out| == 2 {
      InnerStep(s, w, out[0]);
      OutInTwo(s, w, out[0], out[1]);
      assert out == [out[0], out[1]];
    } else {
      ExecThree(s, out[0], out[1], out[2]);
      InnerStep(s, w, out[0]);
      InnerStep(Next(s, out[0]), w, out[1]);
      SettlingLeavesDispatching(Next(Next(s, out[0]), out[1]), w, out[2]);
    }
  }

  ghost predicate DispatchingAfter(s: Sys, steps: seq<Step>, p: Id) {
    p in Exec(s, steps).pubs && Exec(s, steps).pubs[p].status == Dispatching
  }

  /** A dispatching row is stuck for ever exactly when no worker holds it: once its worker is gone, no
      retry, poll or reaping moves it, and its channel and variant accept no new publication. */
  lemma StuckIffOrphaned(s: Sys, p: Id)
    requires Inv(s) && p in s.pubs && s.pubs[p].status == Dispatching
    ensures !Held(s, p) <==> forall steps: seq<Step> :: DispatchingAfter(s, steps, p)
  {
    if Held(s, p) {
      var w :| w in s.workers && s.workers[w].pub == p;
      WayOutLeavesDispatching(s, w);
      assert !DispatchingAfter(s, WayOut(s, w), p);
    } else {
      forall steps: seq<Step> ensures DispatchingAfter(s, steps, p) { OrphanStays(s, steps, p); }
    }
  }

  lemma OrphanBlocksItsChannel(s: Sys, steps: seq<Step>, p: Id, create: Step)
    requires Inv(s) && p in s.pubs && s.pubs[p].status == Dispatching && !Held(s, p)
    requires create.Create? && create.variant == s.pubs[p].variant && create.channel == s.pubs[p].channel
    ensures !Enabled(Exec(s, steps), create)
  {
    OrphanStays(s, steps, p);
    var s' := Exec(s, steps);
    assert p in s'.pubs.Keys && s'.pubs[p].Live();
  }

  /** Such a state is reached by one crash: create a row, release it, claim it, vanish. */
  lemma CrashOrphans(limit: int, key: Key) returns (steps: seq<Step>)
    ensures var s := Exec(Init(limit), steps); 0 in s.pubs && s.pubs[0].status == Dispatching && !Held(s, 0)
  {
    var create, release, start := Create(0, key, 0, 0, None, true, None, 0), Release(0, 0, 0), Start(0, 0, 0, 0);
    var claim := [create, release, start];
    ExecThree(Init(limit), create, release, start);
    var s3 := ClaimedByHand(limit, key, create, release, start);
    steps := claim + [Crash(0)];
    ExecAppend(Init(limit), claim, Crash(0));
    CrashDropsHolder(s3);
  }

  lemma CrashDropsHolder(s: Sys)
    requires 0 in s.pubs && s.pubs[0].status == Dispatching && s.workers.Keys == {0}
    ensures var s' := Next(s, Crash(0)); 0 in s'.pubs && s'.pubs[0].status == Dispatching && !Held(s', 0)
  {}

  lemma ClaimedByHand(limit: int, key: Key, create: Step, release: Step, start: Step) returns (s3: Sys)
    requires create == Create(0, key, 0, 0, None, true, None, 0) && release == Release(0, 0, 0) && start == Start(0, 0, 0, 0)
    ensures s3 == Next(Next(Next(Init(limit), create), release), start)
    ensures 0 in s3.pubs && s3.pubs[0].status == Dispatching && s3.limiter == EMPTY
    ensures s3.limit == limit && s3.pubs.Keys == {0} && s3.pubs[0].key == key && s3.pubs[0].variant == 0
    ensures s3.workers == map[0 := Worker(0, 0, 0, key, Claimed)] && s3.jobs == map[0 := Job(0, JobRunning, 0, 5, 0, Some(0))]
  {
    var row := NewRow(0, 0, None, key, None, 0);
    var s1 := Init(limit).(pubs := map[0 := row]);
    assert Next(Init(limit), create) == s1;
    var s2 := s1.(pubs := map[0 := row.DispatchDeferred(GRACE)], jobs := map[0 := Enqueued(0, 0)]);
    assert Next(s1, release) == s2;
    assert Enabled(s2, start);
    s3 := Next(s2, start);
  }

  // ---------------------------------------------------------------- two runs

  lemma ReapMeans(s: Sys, j: Id, now: Time, delay: nat)
    requires j in s.jobs && s.jobs[j].status == JobRunning && s.jobs[j].claimedAt.Some? && s.jobs[j].claimedAt.value < now - 10 * MINUTE
    ensures var s' := Next(s, Reap(j, now, delay));
            j in s'.jobs && s' == s.(jobs := s.jobs[j := s'.jobs[j]]) && CountsFailure(s.jobs[j], s'.jobs[j], now, delay)
  {}

  /** A claim of a row that is already dispatching costs its job an attempt. */
  lemma {:induction false} UselessClaims(s: Sys, j: Id, now: Time, n: nat)
    requires j in s.jobs && s.jobs[j].status == JobPending && s.jobs[j].runAt <= now && 1 !in s.workers
    requires s.jobs[j].payload in s.pubs && s.pubs[s.jobs[j].payload].status == Dispatching
    requires s.jobs[j].attempts + n <= s.jobs[j].maxAttempts
    ensures var s' := Exec(s, seq(n, _ => Start(1, j, now, 0)));
            && j in s'.jobs && s' == s.(jobs := s.jobs[j := s'.jobs[j]])
            && s'.jobs[j].attempts == s.jobs[j].attempts + n && s'.jobs[j].maxAttempts == s.jobs[j].maxAttempts
            && s'.jobs[j].payload == s.jobs[j].payload
            && (s'.jobs[j].status == if n > 0 && s'.jobs[j].attempts == s.jobs[j].maxAttempts then JobDead else JobPending)
            && (s'.jobs[j].status == JobPending ==> s'.jobs[j].runAt <= now)
  {
    if n > 0 {
      var claims := seq(n - 1, _ => Start(1, j, now, 0));
      UselessClaims(s, j, now, n - 1);
      assert seq(n, _ => Start(1, j, now, 0)) == claims + [Start(1, j, now, 0)];
      ExecAppend(s, claims, Start(1, j, now, 0));
      StartMeans(Exec(s, claims), 1, j, now, 0);
    }
  }

  lemma {:induction false} ExecConcat(s: Sys, a: seq<Step>, b: seq<Step>)
    ensures Exec(s, a + b) == Exec(Exec(s, a), b)
  {
    if b == [] {
      assert a + b == a;
    } else {
      assert (a + b)[..|a + b| - 1] == a + b[..|b| - 1];
      ExecConcat(s, a, b[..|b| - 1]);
    }
  }

  /** `complete` does not look at the job's status, so a job may succeed after it has died: its worker falls silent,
      the job is reaped and runs out of attempts on the row that is still held, and then the worker comes back. */
  lemma DeadJobMaySucceed(limit: int, key: Key, post: PostId) returns (steps: seq<Step>)
    ensures var s := After(limit, steps);
            0 in s.jobs && s.jobs[0].status == JobSucceeded && s.jobs[0].attempts == s.jobs[0].maxAttempts == 5
  {
    var later := 20 * MINUTE;
    var claim, s3 := ClaimRun(limit, key);
    var reap, claims := Reap(0, later, 0), seq(4, _ => Start(1, 0, later, 0));
    ReapMeans(s3, 0, later, 0);
    UselessClaims(Next(s3, reap), 0, later, 4);
    var back, s := BackRun(Exec(Next(s3, reap), claims), later, post);
    steps := claim + [reap] + claims + back;
    ExecAppend(Init(limit), claim, reap);
    ExecConcat(Init(limit), claim + [reap], claims);
    ExecConcat(Init(limit), claim + [reap] + claims, back);
  }

  lemma BackRun(s: Sys, now: Time, post: PostId) returns (steps: seq<Step>, s': Sys)
    requires 0 in s.workers && s.workers[0].phase == Claimed && At(s, 0, Dispatching) && s.limiter == EMPTY
    ensures s' == Exec(s, steps)
    ensures var j := s.workers[0].job; j in s'.jobs && s'.jobs[j] == s.jobs[j].(status := JobSucceeded)
  {
    steps := [CheckRate(0, now), Publish(0, Returns, post), Complete(0, now)];
    ExecThree(s, steps[0], steps[1], steps[2]);
    ComesBack(s, now, post);
    s' := Exec(s, steps);
  }

  lemma ComesBack(s: Sys, now: Time, post: PostId)
    requires 0 in s.workers && s.workers[0].phase == Claimed && At(s, 0, Dispatching) && s.limiter == EMPTY
    ensures var j := s.workers[0].job;
            var s' := Next(Next(Next(s, CheckRate(0, now)), Publish(0, Returns, post)), Complete(0, now));
            j in s'.jobs && s'.jobs[j] == s.jobs[j].(status := JobSucceeded)
  {}

  /** With a poller's clock that runs backwards a row can be released early: it is released in time, put off by a
      worker whose clock is behind, and due again before the time it was created for. */
  lemma EarlyReleaseOnBackwardClock(key: Key, other: Key) returns (steps: seq<Step>, release: Step)
    requires key != other
    ensures Create(1, other, 1, 0, None, true, Some(2 * DAY), 0) in steps
    ensures ReleasesRow(After(1, steps), release, 1) && release.now < 2 * DAY
  {
    var claim, s3 := ClaimRun(1, key);
    var ready, s6 := ReadyRun(s3, key, other);
    var defer, s9 := PutOffRun(s6);
    steps, release := claim + ready + defer, Release(1, 2, DAY);
    ExecConcat(Init(1), claim, ready);
    ExecConcat(Init(1), claim + ready, defer);
  }

  predicate OneClaimed(s: Sys, limit: int, key: Key) {
    && s.limit == limit && s.limiter == EMPTY && s.workers == map[0 := Worker(0, 0, 0, key, Claimed)]
    && s.jobs == map[0 := Job(0, JobRunning, 0, 5, 0, Some(0))]
    && s.pubs.Keys == {0} && s.pubs[0].status == Dispatching && s.pubs[0].key == key && s.pubs[0].variant == 0
  }

  lemma ClaimRun(limit: int, key: Key) returns (steps: seq<Step>, s3: Sys)
    ensures s3 == After(limit, steps) && OneClaimed(s3, limit, key)
  {
    var create, release, start := Create(0, key, 0, 0, None, true, None, 0), Release(0, 0, 0), Start(0, 0, 0, 0);
    steps := [create, release, start];
    ExecThree(Init(limit), create, release, start);
    s3 := ClaimedByHand(limit, key, create, release, start);
  }

  /** The channel's only call of day 0 is used up, and a row created for day 2 has been released on day 2. */
  predicate SecondReady(s: Sys) {
    && s.limit == 1 && s.limiter == Limiter(map[(0, 0) := 1], [Grant(0, 0)]) && s.workers.Keys == {0} && s.jobs.Keys == {0, 1}
    && s.jobs[1] == Job(1, JobPending, 0, 5, 2 * DAY, None)
    && 1 in s.pubs && s.pubs[1].status == Scheduled && s.pubs[1].channel == 0
  }

  lemma ReadyRun(s3: Sys, key: Key, other: Key) returns (steps: seq<Step>, s6: Sys)
    requires key != other && OneClaimed(s3, 1, key)
    ensures Create(1, other, 1, 0, None, true, Some(2 * DAY), 0) in steps
    ensures s6 == Exec(s3, steps) && SecondReady(s6)
  {
    var check, late, release := CheckRate(0, 0), Create(1, other, 1, 0, None, true, Some(2 * DAY), 0), Release(1, 1, 2 * DAY);
    steps := [check, late, release];
    ExecThree(s3, check, late, release);
    s6 := ReadyByHand(s3, key, other, check, late, release);
    assert steps[1] == late;
  }

  lemma ReadyByHand(s3: Sys, key: Key, other: Key, check: Step, late: Step, release: Step) returns (s6: Sys)
    requires key != other && OneClaimed(s3, 1, key) && check == CheckRate(0, 0)
    requires late == Create(1, other, 1, 0, None, true, Some(2 * DAY), 0) && release == Release(1, 1, 2 * DAY)
    ensures s6 == Next(Next(Next(s3, check), late), release) && SecondReady(s6)
  {
    FirstCheck(s3, check);
    LateIsEnabled(Next(s3, check), late);
    s6 := Next(Next(Next(s3, check), late), release);
  }

  lemma LateIsEnabled(s: Sys, late: Step)
    requires late.Create? && late.draft == None && late.hasMedia && late.id == 1 && late.variant == 1
    requires s.pubs.Keys == {0} && s.pubs[0].variant == 0 && s.pubs[0].key != late.key
    ensures Next(s, late) == s.(pubs := s.pubs[1 := NewRow(1, late.channel, None, late.key, late.dueAt, late.now)])
  {}

  lemma FirstCheck(s: Sys, check: Step)
    requires 0 in s.workers && s.workers[0].phase == Claimed && s.workers[0].channel == 0 && s.limiter == EMPTY && check == CheckRate(0, 0)
    ensures Next(s, check) == s.(limiter := Limiter(map[(0, 0) := 1], [Grant(0, 0)]),
                                 workers := s.workers[0 := s.workers[0].(phase := Cleared(0))])
  {
    WindowCharacterised(0, DAY, 0);
  }

  lemma PutOffRun(s: Sys) returns (steps: seq<Step>, s9: Sys)
    requires SecondReady(s)
    ensures s9 == Exec(s, steps) && ReleasesRow(s9, Release(1, 2, DAY), 1)
  {
    var claim, check, defer := Start(1, 1, 2 * DAY, 0), CheckRate(1, 0), Defer(1, "");
    steps := [claim, check, defer];
    ExecThree(s, claim, check, defer);
    s9 := PutOffByHand(s, claim, check, defer);
  }

  lemma PutOffByHand(s: Sys, claim: Step, check: Step, defer: Step) returns (s9: Sys)
    requires SecondReady(s) && claim == Start(1, 1, 2 * DAY, 0) && check == CheckRate(1, 0) && defer == Defer(1, "")
    ensures s9 == Next(Next(Next(s, claim), check), defer) && ReleasesRow(s9, Release(1, 2, DAY), 1)
  {
    StartMeans(s, 1, 1, 2 * DAY, 0);
    SecondCheck(Next(s, claim), check);
    var s8 := Next(Next(s, claim), check);
    DeferredUntil(s8, defer, DAY);
    s9 := Next(s8, defer);
  }

  lemma SecondCheck(s: Sys, check: Step)
    requires 1 in s.workers && s.workers[1].phase == Claimed && s.workers[1].channel == 0 && check == CheckRate(1, 0)
    requires s.limit == 1 && s.limiter == Limiter(map[(0, 0) := 1], [Grant(0, 0)])
    ensures Next(s, check) == s.(workers := s.workers[1 := s.workers[1].(phase := RateLimited(DAY))])
  {
    WindowCharacterised(0, DAY, 0);
  }

  lemma DeferredUntil(s: Sys, defer: Step, due: Time)
    requires defer.Defer? && At(s, defer.worker, Dispatching) && s.workers[defer.worker].phase == RateLimited(due)
    ensures var p, s' := s.workers[defer.worker].pub, Next(s, defer);
            p in s'.pubs && s'.pubs[p].status == Scheduled && s'.pubs[p].dueAt == due && s'.jobs.Keys == s.jobs.Keys
  {}
}
