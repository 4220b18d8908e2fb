/** The publishing protocol as a transition system. Every transaction of a use case is one atomic step,
    and so is every effect an agent has between its transactions; steps of any number of workers, of the
    poller, of the reaper and of people interleave freely, and a worker may vanish after any of them. */
module PublishingProtocol {
  import opened Base
  import opened TaskQueue
  import opened RateLimiting
  import opened Publications
  import Drafts = ContentDrafts

  const GRACE: Time := 10 * MINUTE

  /** Where a run of the agent stands between two of its steps. */
  datatype Phase =
    | Claimed                       // the row is dispatching; the limiter was not asked yet
    | RateLimited(windowEnd: Time)  // the limiter said no
    | Cleared(ticket: nat)          // the limiter said yes, by its ticket-th grant; the provider was not called yet
    | Raised                        // validation failed or the provider call raised
    | Posted(post: PostId)          // the provider answered

  datatype Worker = Worker(job: Id, pub: Id, channel: Id, key: Key, phase: Phase)

  /** One call of the provider's publish: the grant that let it through, and the post it created, if any. */
  datatype Call = Call(pub: Id, key: Key, ticket: nat, created: Option<PostId>)

  datatype Sys = Sys(
    limit: int,
    drafts: Drafts.Drafts,
    pubs: map<Id, Row>,
    jobs: map<Id, Job<Id>>,
    workers: map<Id, Worker>,
    limiter: Limiter,
    posts: map<Key, PostId>,  // the provider, idempotent by key
    calls: seq<Call>)         // every publish call ever made

  datatype Answer = Returns | RaisesAfterPosting | RaisesBeforePosting

  datatype Step =
    | DraftStep(action: Drafts.Action)
    | Create(id: Id, key: Key, variant: Id, channel: Id, draft: Option<Id>, hasMedia: bool, dueAt: Option<Time>, now: Time)
    | Cancel(id: Id)
    | Release(id: Id, job: Id, now: Time)
    | Start(worker: Id, job: Id, now: Time, delay: nat)
    | CheckRate(worker: Id, now: Time)
    | Refuse(worker: Id)
    | Publish(worker: Id, answer: Answer, newPost: PostId)
    | Complete(worker: Id, now: Time)
    | Fail(worker: Id, error: string, now: Time, delay: nat)
    | Defer(worker: Id, reason: string)
    | Crash(worker: Id)
    | Reap(job: Id, now: Time, delay: nat)

  function Init(limit: int): Sys {
    Sys(limit, map[], map[], map[], map[], EMPTY, map[], [])
  }

  // ---------------------------------------------------------------- guards

  predicate DraftUsable(s: Sys, draft: Option<Id>) {
    draft.Some? ==>
      draft.value in s.drafts && s.drafts[draft.value].supersededBy == None && s.drafts[draft.value].status == Drafts.Approved
  }

  /** `get_live`, and the partial unique index behind it. */
  predicate InFlight(s: Sys, variant: Id, channel: Id) {
    exists p :: p in s.pubs.Keys && s.pubs[p].Live() && s.pubs[p].variant == variant && s.pubs[p].channel == channel
  }

  /** The unique constraint on the idempotency key. */
  predicate KeyTaken(s: Sys, key: Key) { exists p :: p in s.pubs.Keys && s.pubs[p].key == key }

  predicate At(s: Sys, w: Id, status: Status) {
    w in s.workers && s.workers[w].pub in s.pubs && s.pubs[s.workers[w].pub].status == status
    && s.workers[w].job in s.jobs
  }

  predicate Enabled(s: Sys, step: Step) {
    match step
    case DraftStep(_) => true
    case Create(id, key, variant, channel, draft, hasMedia, _, _) =>
      DraftUsable(s, draft) && hasMedia && !InFlight(s, variant, channel) && id !in s.pubs && !KeyTaken(s, key)
    case Cancel(id) => id in s.pubs && s.pubs[id].status == Scheduled
    case Release(id, job, now) => id in s.pubs && s.pubs[id].status == Scheduled && s.pubs[id].dueAt <= now && job !in s.jobs
    case Start(w, job, now, _) => w !in s.workers && job in s.jobs && s.jobs[job].Claimable(now)
    case CheckRate(w, _) => w in s.workers && s.workers[w].phase == Claimed
    case Refuse(w) => w in s.workers && s.workers[w].phase.Cleared?
    case Publish(w, _, _) => w in s.workers && s.workers[w].phase.Cleared?
    case Complete(w, _) => At(s, w, Dispatching) && s.workers[w].phase.Posted?
    case Fail(w, _, _, _) => At(s, w, Dispatching) && s.workers[w].phase == Raised
    case Defer(w, _) => At(s, w, Dispatching) && s.workers[w].phase.RateLimited?
    case Crash(w) => w in s.workers
    case Reap(job, now, _) => job in s.jobs && s.jobs[job].Stuck(now - STUCK_AFTER)
  }

  // ---------------------------------------------------------------- effects

  /** Claiming: a row that is gone or not claimable fails the job, any other starts dispatching. */
  function StartEffect(s: Sys, w: Id, job: Id, now: Time, delay: nat): Sys
    requires job in s.jobs
  {
    var claimed := s.jobs[job].Claimed(now);
    var p := claimed.payload;
    if p !in s.pubs || !s.pubs[p].Claimable() then s.(jobs := s.jobs[job := claimed.Failed(now, delay)])
    else s.(jobs := s.jobs[job := claimed],
            pubs := s.pubs[p := s.pubs[p].Dispatched()],
            workers := s.workers[w := Worker(job, p, s.pubs[p].channel, s.pubs[p].key, Claimed)])
  }

  function CheckRateEffect(s: Sys, w: Id, now: Time): Sys
    requires w in s.workers
  {
    var c := s.workers[w];
    var phase := if Allowed(s.limiter, c.channel, s.limit, DAY, now) then Cleared(|s.limiter.grants|)
                 else RateLimited(FixedWindowStart(now, DAY) + DAY);
    s.(limiter := Allow(s.limiter, c.channel, s.limit, DAY, now), workers := s.workers[w := c.(phase := phase)])
  }

  function PublishEffect(s: Sys, w: Id, answer: Answer, newPost: PostId): Sys
    requires w in s.workers && s.workers[w].phase.Cleared?
  {
    var c := s.workers[w];
    var creates := answer != RaisesBeforePosting && c.key !in s.posts;
    var posts := if creates then s.posts[c.key := newPost] else s.posts;
    s.(posts := posts,
       calls := s.calls + [Call(c.pub, c.key, c.phase.ticket, if creates then Some(newPost) else None)],
       workers := s.workers[w := c.(phase := if answer == Returns then Posted(posts[c.key]) else Raised)])
  }

  /** Settling closes the worker and moves its row and its job in one transaction. */
  function Settle(s: Sys, w: Id, row: Row, job: Job<Id>): Sys
    requires w in s.workers
  {
    s.(pubs := s.pubs[s.workers[w].pub := row], jobs := s.jobs[s.workers[w].job := job], workers := s.workers - {w})
  }

  function FailEffect(s: Sys, w: Id, error: string, now: Time, delay: nat): Sys
    requires At(s, w, Dispatching)
  {
    var job := s.jobs[s.workers[w].job].Failed(now, delay);
    Settle(s, w, s.pubs[s.workers[w].pub].AttemptFailed(error, job.status == JobDead), job)
  }

  ghost function Next(s: Sys, step: Step): Sys {
    if !Enabled(s, step) then s else
    match step
    case DraftStep(a) => s.(drafts := Drafts.Next(s.drafts, a))
    case Create(id, key, variant, channel, draft, _, dueAt, now) =>
      s.(pubs := s.pubs[id := NewRow(variant, channel, draft, key, dueAt, now)])
    case Cancel(id) => s.(pubs := s.pubs[id := s.pubs[id].CancelledRow()])
    case Release(id, job, now) =>
      s.(pubs := s.pubs[id := s.pubs[id].DispatchDeferred(now + GRACE)], jobs := s.jobs[job := Enqueued(id, now)])
    case Start(w, job, now, delay) => StartEffect(s, w, job, now, delay)
    case CheckRate(w, now) => CheckRateEffect(s, w, now)
    case Refuse(w) => s.(workers := s.workers[w := s.workers[w].(phase := Raised)])
    case Publish(w, answer, newPost) => PublishEffect(s, w, answer, newPost)
    case Complete(w, now) =>
      var c := s.workers[w];
      Settle(s, w, s.pubs[c.pub].PublishedAs(c.phase.post, now), s.jobs[c.job].Completed())
    case Fail(w, error, now, delay) => FailEffect(s, w, error, now, delay)
    case Defer(w, reason) =>
      var c := s.workers[w];
      Settle(s, w, s.pubs[c.pub].DeferredTo(reason, c.phase.windowEnd), s.jobs[c.job].Completed())
    case Crash(w) => s.(workers := s.workers - {w})
    case Reap(job, now, delay) => s.(jobs := s.jobs[job := s.jobs[job].Failed(now, delay)])
  }

  /** A run: any sequence of steps; a step whose guard fails raises and changes nothing. */
  ghost function Exec(s: Sys, steps: seq<Step>): Sys {
    if steps == [] then s else Next(Exec(s, steps[..|steps| - 1]), steps[|steps| - 1])
  }

  lemma ExecAppend(s: Sys, steps: seq<Step>, last: Step)
    ensures Exec(s, steps + [last]) == Next(Exec(s, steps), last)
  {
    assert (steps + [last])[..|steps|] == steps;
  }

  /** A claim dispatches the job's row when the row is there and scheduled or failed; any other claim fails the job. */
  lemma StartMeans(s: Sys, w: Id, j: Id, now: Time, delay: nat)
    requires Enabled(s, Start(w, j, now, delay))
    ensures var s' := Next(s, Start(w, j, now, delay)); var p := s.jobs[j].payload;
            && s.jobs[j].status == JobPending && s.jobs[j].runAt <= now && j in s'.jobs
            && if p in s.pubs && s.pubs[p].status in {Scheduled, Failed}
               then s' == s.(jobs := s.jobs[j := s.jobs[j].(status := JobRunning, claimedAt := Some(now))],
                             pubs := s.pubs[p := s.pubs[p].(status := Dispatching)],
                             workers := s.workers[w := Worker(j, p, s.pubs[p].channel, s.pubs[p].key, Claimed)])
               else s' == s.(jobs := s.jobs[j := s'.jobs[j]]) && CountsFailure(s.jobs[j].(claimedAt := Some(now)), s'.jobs[j], now, delay)
  {}

  // ---------------------------------------------------------------- the invariant

  ghost predicate KeysDistinct(s: Sys) {
    forall p, q | p in s.pubs && q in s.pubs && s.pubs[p].key == s.pubs[q].key :: p == q
  }

  ghost predicate SingleFlight(s: Sys) {
    forall p, q | p in s.pubs && q in s.pubs && s.pubs[p].Live() && s.pubs[q].Live()
                  && s.pubs[p].variant == s.pubs[q].variant && s.pubs[p].channel == s.pubs[q].channel :: p == q
  }

  ghost predicate JobsNameRows(s: Sys) {
    forall j | j in s.jobs :: s.jobs[j].payload in s.pubs
  }

  predicate HoldsRow(s: Sys, w: Id)
    requires w in s.workers
  {
    var c := s.workers[w];
    && c.pub in s.pubs && c.job in s.jobs && s.jobs[c.job].payload == c.pub
    && s.pubs[c.pub].status == Dispatching
    && c.key == s.pubs[c.pub].key && c.channel == s.pubs[c.pub].channel
  }

  /** An open worker holds its row in Dispatching and carries the row's own key and channel. */
  ghost predicate WorkersHoldRows(s: Sys) { forall w | w in s.workers :: HoldsRow(s, w) }

  /** Dispatching is a lock. */
  ghost predicate OneWorkerPerRow(s: Sys) {
    forall v, w | v in s.workers && w in s.workers && s.workers[v].pub == s.workers[w].pub :: v == w
  }

  ghost predicate CallsCarryTheKey(s: Sys) {
    forall i | 0 <= i < |s.calls| :: s.calls[i].pub in s.pubs && s.calls[i].key == s.pubs[s.calls[i].pub].key
  }

  ghost predicate PostsMatch(calls: seq<Call>, posts: map<Key, PostId>) {
    && (forall i | 0 <= i < |calls| && calls[i].created.Some? :: calls[i].key in posts && posts[calls[i].key] == calls[i].created.value)
    && (forall i, j | 0 <= i < |calls| && 0 <= j < |calls| && calls[i].created.Some? && calls[j].created.Some?
                      && calls[i].key == calls[j].key :: i == j)
    && (forall k | k in posts :: HasCreator(calls, k))
  }

  /** The provider holds exactly the posts the calls created, one per key. */
  ghost predicate PostsMatchCalls(s: Sys) { PostsMatch(s.calls, s.posts) }

  ghost predicate HasCreator(calls: seq<Call>, k: Key) {
    exists i :: 0 <= i < |calls| && calls[i].key == k && calls[i].created.Some?
  }

  predicate RowHoldsPost(s: Sys, p: Id)
    requires p in s.pubs
  {
    if s.pubs[p].status == Published
    then s.pubs[p].key in s.posts && s.pubs[p].postId == Some(s.posts[s.pubs[p].key])
    else s.pubs[p].postId == None
  }

  predicate WorkerHoldsPost(s: Sys, w: Id)
    requires w in s.workers
  {
    s.workers[w].phase.Posted? ==> s.workers[w].key in s.posts && s.workers[w].phase.post == s.posts[s.workers[w].key]
  }

  ghost predicate PublishedHoldsPost(s: Sys) {
    && (forall p | p in s.pubs :: RowHoldsPost(s, p))
    && (forall w | w in s.workers :: WorkerHoldsPost(s, w))
  }

  predicate Untouched(phase: Phase) { phase == Claimed || phase.RateLimited? || phase.Cleared? }

  /** A call was made only for rows that are mid-attempt, published, or have a failed attempt on record. */
  ghost predicate CallsLeaveAttempts(s: Sys) {
    && (forall i | 0 <= i < |s.calls| && s.calls[i].pub in s.pubs && s.pubs[s.calls[i].pub].attempts == 0 ::
          s.pubs[s.calls[i].pub].status in {Dispatching, Published})
  }

  /** A worker that has not called the provider yet holds a row without calls, or one that failed before. */
  ghost predicate UntouchedMeansNoCall(s: Sys) {
    && (forall i, w | 0 <= i < |s.calls| && w in s.workers && s.workers[w].pub == s.calls[i].pub
                      && Untouched(s.workers[w].phase) && s.calls[i].pub in s.pubs ::
          s.pubs[s.calls[i].pub].attempts > 0)
  }

  ghost predicate Grants(s: Sys, ticket: nat, channel: Id) {
    ticket < |s.limiter.grants| && s.limiter.grants[ticket].bucket == channel
  }

  /** Every call, made or about to be made, has its own grant of the row's channel. */
  ghost predicate TicketsAreOwn(s: Sys) {
    && (forall i | 0 <= i < |s.calls| && s.calls[i].pub in s.pubs :: Grants(s, s.calls[i].ticket, s.pubs[s.calls[i].pub].channel))
    && (forall i, j | 0 <= i < |s.calls| && 0 <= j < |s.calls| && s.calls[i].ticket == s.calls[j].ticket :: i == j)
  }

  ghost predicate OpenTicketsAreOwn(s: Sys) {
    && (forall w | w in s.workers && s.workers[w].phase.Cleared? :: Grants(s, s.workers[w].phase.ticket, s.workers[w].channel))
    && (forall w, i | w in s.workers && s.workers[w].phase.Cleared? && 0 <= i < |s.calls| ::
          s.workers[w].phase.ticket != s.calls[i].ticket)
    && (forall v, w | v in s.workers && w in s.workers && s.workers[v].phase.Cleared? && s.workers[w].phase.Cleared?
                      && s.workers[v].phase.ticket == s.workers[w].phase.ticket :: v == w)
  }

  ghost predicate FailedWasAttempted(s: Sys) {
    forall p | p in s.pubs && s.pubs[p].status in {Failed, Dead} :: s.pubs[p].attempts > 0
  }

  predicate IsRetry(s: Sys, j: Id, p: Id) { j in s.jobs && s.jobs[j].payload == p && s.jobs[j].status == JobPending }

  ghost predicate HasRetry(s: Sys, p: Id) { exists j :: IsRetry(s, j, p) }

  /** No lost retry. */
  ghost predicate FailedHasRetry(s: Sys) {
    forall p | p in s.pubs && s.pubs[p].status == Failed :: HasRetry(s, p)
  }

  ghost predicate CitedDraftsApproved(s: Sys) {
    forall p | p in s.pubs && s.pubs[p].draft.Some? ::
      s.pubs[p].draft.value in s.drafts && s.drafts[s.pubs[p].draft.value].status == Drafts.Approved
  }

  ghost predicate RowsInv(s: Sys) {
    && KeysDistinct(s) && SingleFlight(s) && JobsNameRows(s) && WorkersHoldRows(s) && OneWorkerPerRow(s)
    && FailedWasAttempted(s) && FailedHasRetry(s)
  }

  ghost predicate CallsInv(s: Sys) {
    && CallsCarryTheKey(s) && PostsMatchCalls(s) && PublishedHoldsPost(s)
    && CallsLeaveAttempts(s) && UntouchedMeansNoCall(s)
    && TicketsAreOwn(s) && OpenTicketsAreOwn(s)
  }

  ghost predicate Inv(s: Sys) {
    && Drafts.Inv(s.drafts) && CitedDraftsApproved(s) && Tallied(s.limiter, s.limit, DAY)
    && RowsInv(s) && CallsInv(s)
  }

  lemma RowsKeepIdentity(s: Sys, step: Step)
    ensures forall p | p in s.pubs ::
      && p in Next(s, step).pubs
      && Next(s, step).pubs[p].key == s.pubs[p].key && Next(s, step).pubs[p].draft == s.pubs[p].draft
      && Next(s, step).pubs[p].variant == s.pubs[p].variant && Next(s, step).pubs[p].channel == s.pubs[p].channel
  {}

  lemma KeepsKeysDistinct(s: Sys, step: Step)
    requires KeysDistinct(s)
    ensures KeysDistinct(Next(s, step))
  {}

  lemma KeepsSingleFlight(s: Sys, step: Step)
    requires SingleFlight(s)
    ensures SingleFlight(Next(s, step))
  {}

  lemma KeepsJobsNameRows(s: Sys, step: Step)
    requires JobsNameRows(s) && WorkersHoldRows(s)
    ensures JobsNameRows(Next(s, step))
  {}

  lemma KeepsWorkersHoldRows(s: Sys, step: Step)
    requires WorkersHoldRows(s) && OneWorkerPerRow(s)
    ensures WorkersHoldRows(Next(s, step))
  {
    forall w | w in Next(s, step).workers ensures HoldsRow(Next(s, step), w) { KeepsHoldsRow(s, step, w); }
  }

  lemma KeepsHoldsRow(s: Sys, step: Step, w: Id)
    requires WorkersHoldRows(s) && OneWorkerPerRow(s) && w in Next(s, step).workers
    ensures HoldsRow(Next(s, step), w)
  {
    WorkerOrigin(s, step, w);
    if w in s.workers {
      HeldRowStays(s, step, w);
      JobsKeepPayload(s, step, s.workers[w].job);
    }
  }

  /** A worker was open before, on the same row and job, or it has just claimed its row. */
  lemma WorkerOrigin(s: Sys, step: Step, w: Id)
    requires w in Next(s, step).workers
    ensures var c := Next(s, step).workers[w];
            if w in s.workers then c.(phase := s.workers[w].phase) == s.workers[w] else HoldsRow(Next(s, step), w)
  {}

  /** Nothing but its own worker touches a row that is held. */
  lemma HeldRowStays(s: Sys, step: Step, w: Id)
    requires OneWorkerPerRow(s) && w in s.workers && HoldsRow(s, w) && w in Next(s, step).workers
    ensures s.workers[w].pub in Next(s, step).pubs
    ensures Next(s, step).pubs[s.workers[w].pub] == s.pubs[s.workers[w].pub]
  {}

  lemma JobsKeepPayload(s: Sys, step: Step, j: Id)
    requires j in s.jobs
    ensures j in Next(s, step).jobs && Next(s, step).jobs[j].payload == s.jobs[j].payload
  {}

  lemma KeepsOneWorkerPerRow(s: Sys, step: Step)
    requires WorkersHoldRows(s) && OneWorkerPerRow(s)
    ensures OneWorkerPerRow(Next(s, step))
  {}

  lemma KeepsCallsCarryTheKey(s: Sys, step: Step)
    requires WorkersHoldRows(s) && CallsCarryTheKey(s)
    ensures CallsCarryTheKey(Next(s, step))
  {
    RowsKeepIdentity(s, step);
    var s' := Next(s, step);
    forall i | 0 <= i < |s'.calls| ensures s'.calls[i].pub in s'.pubs && s'.calls[i].key == s'.pubs[s'.calls[i].pub].key {
      NewCallCarriesTheKey(s, step, i);
    }
  }

  lemma NewCallCarriesTheKey(s: Sys, step: Step, i: nat)
    requires WorkersHoldRows(s) && i < |Next(s, step).calls|
    ensures if i < |s.calls| then Next(s, step).calls[i] == s.calls[i]
            else var c := Next(s, step).calls[i]; c.pub in s.pubs && c.key == s.pubs[c.pub].key
  {}

  lemma KeepsPostsMatchCalls(s: Sys, step: Step)
    requires PostsMatchCalls(s)
    ensures PostsMatchCalls(Next(s, step))
  {
    if step.Publish? && Enabled(s, step) { PublishMatches(s, step); } else { OnlyPublishPosts(s, step); }
  }

  lemma OnlyPublishPosts(s: Sys, step: Step)
    requires !(step.Publish? && Enabled(s, step))
    ensures Next(s, step).posts == s.posts && Next(s, step).calls == s.calls
  {}

  lemma PublishMatches(s: Sys, step: Step)
    requires PostsMatchCalls(s) && step.Publish? && Enabled(s, step)
    ensures PostsMatchCalls(Next(s, step))
  {
    PublishAppends(s, step);
    var s' := Next(s, step);
    assert s'.calls == s.calls + [s'.calls[|s.calls|]];
    CallKeepsMatch(s.calls, s.posts, s'.calls[|s.calls|], s'.posts);
  }

  lemma CallKeepsMatch(calls: seq<Call>, posts: map<Key, PostId>, c: Call, posts': map<Key, PostId>)
    requires PostsMatch(calls, posts)
    requires if c.created.Some? then c.key !in posts && posts' == posts[c.key := c.created.value] else posts' == posts
    ensures PostsMatch(calls + [c], posts')
  {
    var calls' := calls + [c];
    forall k | k in posts' ensures HasCreator(calls', k) {
      if k in posts {
        var i :| 0 <= i < |calls| && calls[i].key == k && calls[i].created.Some?;
        assert calls'[i] == calls[i];
      } else {
        assert calls'[|calls|] == c;
      }
    }
  }

  /** A call adds its log entry, and a post exactly when the key had none and the provider got as far. */
  lemma PublishAppends(s: Sys, step: Step)
    requires step.Publish? && Enabled(s, step)
    ensures var s' := Next(s, step); var n := |s.calls|; var key := s.workers[step.worker].key;
            && |s'.calls| == n + 1 && s'.calls[n].key == key && (forall i | 0 <= i < n :: s'.calls[i] == s.calls[i])
            && (s'.calls[n].created.Some? ==> key !in s.posts && s'.posts == s.posts[key := s'.calls[n].created.value])
            && (s'.calls[n].created.None? ==> s'.posts == s.posts)
  {}

  lemma KeepsPublishedHoldsPost(s: Sys, step: Step)
    requires WorkersHoldRows(s) && PublishedHoldsPost(s)
    ensures PublishedHoldsPost(Next(s, step))
  {
    var s' := Next(s, step);
    forall p | p in s'.pubs ensures RowHoldsPost(s', p) { KeepsRowHoldsPost(s, step, p); }
    forall w | w in s'.workers ensures WorkerHoldsPost(s', w) { KeepsWorkerHoldsPost(s, step, w); }
  }

  lemma KeepsRowHoldsPost(s: Sys, step: Step, p: Id)
    requires WorkersHoldRows(s) && PublishedHoldsPost(s) && p in Next(s, step).pubs
    ensures RowHoldsPost(Next(s, step), p)
  {
    PostIdOrigin(s, step, p);
    if p in s.pubs {
      assert RowHoldsPost(s, p);
      PostStays(s, step, s.pubs[p].key);
      if step.Complete? && step.worker in s.workers { assert HoldsRow(s, step.worker) && WorkerHoldsPost(s, step.worker); }
    }
  }

  lemma PostStays(s: Sys, step: Step, key: Key)
    ensures key in s.posts ==> key in Next(s, step).posts && Next(s, step).posts[key] == s.posts[key]
  {}

  /** A row's post is the one it had, or the one its own worker has just brought back. */
  lemma PostIdOrigin(s: Sys, step: Step, p: Id)
    requires p in Next(s, step).pubs
    ensures var row := Next(s, step).pubs[p];
            if p !in s.pubs then row.status != Published && row.postId == None
            else row.key == s.pubs[p].key
                 && ((row.postId == s.pubs[p].postId && (row.status == Published <==> s.pubs[p].status == Published))
                     || (step.Complete? && step.worker in s.workers && s.workers[step.worker].pub == p && row.status == Published
                         && s.workers[step.worker].phase.Posted? && row.postId == Some(s.workers[step.worker].phase.post)))
  {}

  lemma KeepsWorkerHoldsPost(s: Sys, step: Step, w: Id)
    requires PublishedHoldsPost(s) && w in Next(s, step).workers
    ensures WorkerHoldsPost(Next(s, step), w)
  {
    if w in s.workers { assert WorkerHoldsPost(s, w); }
  }

  lemma KeepsTicketsAreOwn(s: Sys, step: Step)
    requires WorkersHoldRows(s) && CallsCarryTheKey(s) && TicketsAreOwn(s) && OpenTicketsAreOwn(s)
    ensures TicketsAreOwn(Next(s, step))
  {
    var s' := Next(s, step);
    forall i | 0 <= i < |s'.calls| && s'.calls[i].pub in s'.pubs
      ensures Grants(s', s'.calls[i].ticket, s'.pubs[s'.calls[i].pub].channel)
    {
      CallHasGrant(s, step, i);
    }
    forall i, j | 0 <= i < |s'.calls| && 0 <= j < |s'.calls| && s'.calls[i].ticket == s'.calls[j].ticket ensures i == j {
      CallsGrow(s, step, i);
      CallsGrow(s, step, j);
    }
  }

  lemma CallHasGrant(s: Sys, step: Step, i: nat)
    requires WorkersHoldRows(s) && CallsCarryTheKey(s) && TicketsAreOwn(s) && OpenTicketsAreOwn(s)
    requires i < |Next(s, step).calls| && Next(s, step).calls[i].pub in Next(s, step).pubs
    ensures Grants(Next(s, step), Next(s, step).calls[i].ticket, Next(s, step).pubs[Next(s, step).calls[i].pub].channel)
  {
    RowsKeepIdentity(s, step);
    GrantsGrow(s, step);
    CallsGrow(s, step, i);
    if i < |s.calls| {
      GrantsStay(s, Next(s, step), s.calls[i].ticket, s.pubs[s.calls[i].pub].channel);
    } else {
      assert HoldsRow(s, step.worker);
      GrantsStay(s, Next(s, step), s.workers[step.worker].phase.ticket, s.workers[step.worker].channel);
    }
  }

  lemma GrantsStay(s: Sys, s': Sys, ticket: nat, channel: Id)
    requires Grants(s, ticket, channel) && s.limiter.grants <= s'.limiter.grants
    ensures Grants(s', ticket, channel)
  {}

  lemma GrantsGrow(s: Sys, step: Step)
    ensures s.limiter.grants <= Next(s, step).limiter.grants
    ensures |s.calls| <= |Next(s, step).calls| <= |s.calls| + 1
  {}

  lemma KeepsOpenTicketsAreOwn(s: Sys, step: Step)
    requires CallsCarryTheKey(s) && TicketsAreOwn(s) && OpenTicketsAreOwn(s)
    ensures OpenTicketsAreOwn(Next(s, step))
  {
    var s' := Next(s, step);
    forall w | w in s'.workers && s'.workers[w].phase.Cleared?
      ensures Grants(s', s'.workers[w].phase.ticket, s'.workers[w].channel)
    {
      ClearedOrigin(s, step, w);
    }
    forall w, i | w in s'.workers && s'.workers[w].phase.Cleared? && 0 <= i < |s'.calls|
      ensures s'.workers[w].phase.ticket != s'.calls[i].ticket
    {
      OpenTicketIsUncalled(s, step, w, i);
    }
    forall v, w | v in s'.workers && w in s'.workers && s'.workers[v].phase.Cleared? && s'.workers[w].phase.Cleared?
                  && s'.workers[v].phase.ticket == s'.workers[w].phase.ticket
      ensures v == w
    {
      ClearedOrigin(s, step, v);
      ClearedOrigin(s, step, w);
    }
  }

  lemma OpenTicketIsUncalled(s: Sys, step: Step, w: Id, i: nat)
    requires CallsCarryTheKey(s) && TicketsAreOwn(s) && OpenTicketsAreOwn(s)
    requires var s' := Next(s, step); w in s'.workers && s'.workers[w].phase.Cleared? && i < |s'.calls|
    ensures Next(s, step).workers[w].phase.ticket != Next(s, step).calls[i].ticket
  {
    ClearedOrigin(s, step, w);
    CallsGrow(s, step, i);
    if i < |s.calls| { CallTicketIsGrant(s, i); }
  }

  lemma CallTicketIsGrant(s: Sys, i: nat)
    requires CallsCarryTheKey(s) && TicketsAreOwn(s) && i < |s.calls|
    ensures s.calls[i].ticket < |s.limiter.grants|
  {}

  /** A cleared worker was cleared before, or it has just been cleared by a new grant. */
  lemma ClearedOrigin(s: Sys, step: Step, w: Id)
    requires w in Next(s, step).workers && Next(s, step).workers[w].phase.Cleared?
    ensures s.limiter.grants <= Next(s, step).limiter.grants
    ensures var c := Next(s, step).workers[w];
            || (w in s.workers && s.workers[w] == c)
            || (step.CheckRate? && step.worker == w && c.phase.ticket == |s.limiter.grants|
                && Next(s, step).limiter.grants == s.limiter.grants + [Grant(c.channel, step.now)])
  {}

  lemma KeepsFailedWasAttempted(s: Sys, step: Step)
    requires FailedWasAttempted(s)
    ensures FailedWasAttempted(Next(s, step))
  {}

  lemma KeepsCallsLeaveAttempts(s: Sys, step: Step)
    requires WorkersHoldRows(s) && CallsCarryTheKey(s) && CallsLeaveAttempts(s) && UntouchedMeansNoCall(s)
    ensures CallsLeaveAttempts(Next(s, step))
  {
    var s' := Next(s, step);
    forall i | 0 <= i < |s'.calls| && s'.calls[i].pub in s'.pubs && s'.pubs[s'.calls[i].pub].attempts == 0
      ensures s'.pubs[s'.calls[i].pub].status in {Dispatching, Published}
    {
      if i < |s.calls| { assert s'.calls[i] == s.calls[i]; }
    }
  }

  /** Where an untouched worker comes from: it was untouched before, or it has just claimed its row. */
  lemma UntouchedOrigin(s: Sys, step: Step, w: Id)
    requires w in Next(s, step).workers && Untouched(Next(s, step).workers[w].phase)
    ensures var c := Next(s, step).workers[w];
            || (w in s.workers && s.workers[w].pub == c.pub && Untouched(s.workers[w].phase))
            || (c.pub in s.pubs && s.pubs[c.pub].Claimable())
  {}

  lemma AttemptsGrow(s: Sys, step: Step, p: Id)
    requires p in s.pubs
    ensures p in Next(s, step).pubs && Next(s, step).pubs[p].attempts >= s.pubs[p].attempts
  {}

  /** The log only grows, and only by a call of a worker that is done being untouched. */
  lemma CallsGrow(s: Sys, step: Step, i: nat)
    requires i < |Next(s, step).calls|
    ensures i < |s.calls| ==> Next(s, step).calls[i] == s.calls[i]
    ensures i >= |s.calls| ==> step.Publish? && step.worker in s.workers && Next(s, step).workers.Keys == s.workers.Keys
                               && s.workers[step.worker].phase.Cleared?
                               && Next(s, step).calls[i].ticket == s.workers[step.worker].phase.ticket
                               && Next(s, step).calls[i].pub == s.workers[step.worker].pub
                               && !Untouched(Next(s, step).workers[step.worker].phase)
  {}

  lemma UntouchedStaysCallFree(s: Sys, step: Step, i: nat, w: Id)
    requires OneWorkerPerRow(s) && FailedWasAttempted(s)
    requires CallsCarryTheKey(s) && CallsLeaveAttempts(s) && UntouchedMeansNoCall(s)
    requires var s' := Next(s, step);
             i < |s'.calls| && w in s'.workers && s'.workers[w].pub == s'.calls[i].pub && Untouched(s'.workers[w].phase)
    ensures var s' := Next(s, step);
            s'.calls[i].pub in s'.pubs ==> s'.pubs[s'.calls[i].pub].attempts > 0
  {
    CallsGrow(s, step, i);
    UntouchedOrigin(s, step, w);
    if i < |s.calls| {
      AttemptsGrow(s, step, s.calls[i].pub);
    }
  }

  lemma KeepsUntouchedMeansNoCall(s: Sys, step: Step)
    requires WorkersHoldRows(s) && OneWorkerPerRow(s) && FailedWasAttempted(s)
    requires CallsCarryTheKey(s) && CallsLeaveAttempts(s) && UntouchedMeansNoCall(s)
    ensures UntouchedMeansNoCall(Next(s, step))
  {
    if Enabled(s, step) {
      var s' := Next(s, step);
      forall i, w | 0 <= i < |s'.calls| && w in s'.workers && s'.workers[w].pub == s'.calls[i].pub
                    && Untouched(s'.workers[w].phase) && s'.calls[i].pub in s'.pubs
        ensures s'.pubs[s'.calls[i].pub].attempts > 0
      {
        UntouchedStaysCallFree(s, step, i, w);
      }
    }
  }

  lemma SettlingKeepsRetry(s: Sys, w: Id, row: Row, job: Job<Id>, p: Id, j: Id)
    requires w in s.workers && HoldsRow(s, w)
    requires p in s.pubs && s.pubs[p].status == Failed && IsRetry(s, j, p)
    ensures IsRetry(Settle(s, w, row, job), j, p)
  {}

  lemma StartKeepsRetry(s: Sys, w: Id, job: Id, now: Time, delay: nat, p: Id, j: Id)
    requires p in s.pubs && s.pubs[p].status == Failed && IsRetry(s, j, p) && job in s.jobs
    ensures var s' := StartEffect(s, w, job, now, delay);
            p in s'.pubs && s'.pubs[p].status == Failed ==> IsRetry(s', j, p)
  {}

  /** Only a claim takes a retry out of pending, and a claim of a failed row dispatches it. */
  lemma RetryKept(s: Sys, step: Step, p: Id, j: Id)
    requires WorkersHoldRows(s) && p in s.pubs && s.pubs[p].status == Failed && IsRetry(s, j, p)
    requires p in Next(s, step).pubs && Next(s, step).pubs[p].status == Failed
    ensures IsRetry(Next(s, step), j, p)
  {
    if Enabled(s, step) {
      match step
      case Start(w, job, now, delay) => StartKeepsRetry(s, w, job, now, delay, p, j);
      case Complete(w, now) =>
        var c := s.workers[w];
        SettlingKeepsRetry(s, w, s.pubs[c.pub].PublishedAs(c.phase.post, now), s.jobs[c.job].Completed(), p, j);
      case Fail(w, error, now, delay) =>
        var c := s.workers[w];
        var job := s.jobs[c.job].Failed(now, delay);
        SettlingKeepsRetry(s, w, s.pubs[c.pub].AttemptFailed(error, job.status == JobDead), job, p, j);
      case Defer(w, reason) =>
        var c := s.workers[w];
        SettlingKeepsRetry(s, w, s.pubs[c.pub].DeferredTo(reason, c.phase.windowEnd), s.jobs[c.job].Completed(), p, j);
      case _ =>
    }
  }

  /** A failed row had failed before, or its own worker has just failed it and put its job back to pending. */
  lemma FailedOrigin(s: Sys, step: Step, p: Id)
    requires WorkersHoldRows(s) && p in Next(s, step).pubs && Next(s, step).pubs[p].status == Failed
    ensures || (p in s.pubs && s.pubs[p].status == Failed)
            || (step.Fail? && step.worker in s.workers && IsRetry(Next(s, step), s.workers[step.worker].job, p))
  {}

  lemma KeepsFailedHasRetry(s: Sys, step: Step)
    requires WorkersHoldRows(s) && FailedHasRetry(s)
    ensures FailedHasRetry(Next(s, step))
  {
    forall p | p in Next(s, step).pubs && Next(s, step).pubs[p].status == Failed ensures HasRetry(Next(s, step), p) {
      FailedOrigin(s, step, p);
      if p in s.pubs && s.pubs[p].status == Failed {
        assert HasRetry(s, p);
        var j :| IsRetry(s, j, p);
        RetryKept(s, step, p, j);
      }
    }
  }

  lemma KeepsCitedDraftsApproved(s: Sys, step: Step)
    requires CitedDraftsApproved(s)
    ensures CitedDraftsApproved(Next(s, step))
  {
    if step.DraftStep? { Drafts.NextGrows(s.drafts, step.action); }
  }

  lemma KeepsRowsInv(s: Sys, step: Step)
    requires RowsInv(s)
    ensures RowsInv(Next(s, step))
  {
    KeepsKeysDistinct(s, step);
    KeepsSingleFlight(s, step);
    KeepsJobsNameRows(s, step);
    KeepsWorkersHoldRows(s, step);
    KeepsOneWorkerPerRow(s, step);
    KeepsFailedWasAttempted(s, step);
    KeepsFailedHasRetry(s, step);
  }

  lemma KeepsCallsInv(s: Sys, step: Step)
    requires RowsInv(s) && CallsInv(s)
    ensures CallsInv(Next(s, step))
  {
    KeepsCallsCarryTheKey(s, step);
    KeepsPostsMatchCalls(s, step);
    KeepsPublishedHoldsPost(s, step);
    KeepsCallsLeaveAttempts(s, step);
    KeepsUntouchedMeansNoCall(s, step);
    KeepsTicketsAreOwn(s, step);
    KeepsOpenTicketsAreOwn(s, step);
  }

  lemma KeepsTally(s: Sys, step: Step)
    requires Tallied(s.limiter, s.limit, DAY)
    ensures Next(s, step).limit == s.limit && Tallied(Next(s, step).limiter, s.limit, DAY)
  {
    if step.CheckRate? && Enabled(s, step) {
      AllowKeepsTally(s.limiter, s.workers[step.worker].channel, s.limit, DAY, step.now);
    }
  }

  lemma KeepsDrafts(s: Sys, step: Step)
    requires Drafts.Inv(s.drafts)
    ensures Drafts.Inv(Next(s, step).drafts)
  {
    if step.DraftStep? { Drafts.NextKeepsInv(s.drafts, step.action); }
  }

  lemma KeepsInv(s: Sys, step: Step)
    requires Inv(s)
    ensures Inv(Next(s, step))
  {
    KeepsDrafts(s, step);
    KeepsCitedDraftsApproved(s, step);
    KeepsTally(s, step);
    KeepsRowsInv(s, step);
    KeepsCallsInv(s, step);
  }

  lemma {:induction false} RunKeepsInv(s: Sys, steps: seq<Step>)
    requires Inv(s)
    ensures Inv(Exec(s, steps))
  {
    if steps != [] {
      RunKeepsInv(s, steps[..|steps| - 1]);
      KeepsInv(Exec(s, steps[..|steps| - 1]), steps[|steps| - 1]);
    }
  }

  lemma InitInv(limit: int)
    ensures Inv(Init(limit))
  {
    EmptyTallied(limit, DAY);
  }
}
