/** The publishing use cases and the publish agent, over the tables they update in place. Each method is one
    transaction or one external call, and is proved to take exactly one step of the protocol. */
module PublishingUseCases {
  import opened Base
  import opened Listing
  import opened TaskQueue
  import opened RateLimiting
  import opened Publications
  import opened PublishingProtocol
  import Drafts = ContentDrafts

  /** What a claim hands to the agent. */
  datatype Context = Context(job: Id, pub: Id, channel: Id, key: Key)

  /** What the provider's validate call does. */
  datatype Check = Valid | Invalid | ValidateRaises

  /** The rows the poller looks for, and when they are due. */
  function DueColumn(pubs: map<Id, Row>, now: Time, locked: set<Id>): map<Id, Time> {
    map p | p in pubs && pubs[p].status == Scheduled && pubs[p].dueAt <= now && p !in locked :: pubs[p].dueAt
  }

  function ClaimableColumn(jobs: map<Id, Job<Id>>, now: Time, locked: set<Id>): map<Id, Time> {
    map j | j in jobs && jobs[j].Claimable(now) && j !in locked :: jobs[j].runAt
  }

  function StuckColumn(jobs: map<Id, Job<Id>>, claimedBefore: Time, locked: set<Id>): map<Id, Time> {
    map j | j in jobs && jobs[j].Stuck(claimedBefore) && j !in locked :: jobs[j].claimedAt.value
  }

  function ReleaseSteps(due: seq<Id>, jobIds: seq<Id>, now: Time): seq<Step>
    requires |due| == |jobIds|
  {
    seq(|due|, i requires 0 <= i < |due| => Release(due[i], jobIds[i], now))
  }

  function ReapSteps(stuck: seq<Id>, backoff: Id -> nat, now: Time): seq<Step> {
    seq(|stuck|, i requires 0 <= i < |stuck| => Reap(stuck[i], now, backoff(stuck[i])))
  }

  /** Scheduled, and its time has come. */
  predicate IsDue(row: Row, now: Time) { row.status == Scheduled && row.dueAt <= now }

  /** Row p was pushed past the grace period, and job j was enqueued for it. */
  predicate Released(pubs: map<Id, Row>, pubs': map<Id, Row>, jobs': map<Id, Job<Id>>, p: Id, j: Id, now: Time) {
    && p in pubs && p in pubs' && pubs'[p] == pubs[p].(dueAt := now + 10 * MINUTE)
    && j in jobs' && jobs'[j] == Job(p, JobPending, 0, 5, now, None)
  }

  /** Claimed, and not heard of for more than ten minutes. */
  predicate SilentTooLong(job: Job<Id>, now: Time) {
    job.status == JobRunning && job.claimedAt.Some? && job.claimedAt.value < now - 10 * MINUTE
  }

  predicate Reaped(jobs: map<Id, Job<Id>>, jobs': map<Id, Job<Id>>, j: Id, now: Time, delay: nat) {
    j in jobs && j in jobs' && CountsFailure(jobs[j], jobs'[j], now, delay)
  }

  predicate OthersStay<T(==)>(m: map<Id, T>, m': map<Id, T>, ids: seq<Id>) {
    && (forall id | id in m && id !in ids :: id in m' && m'[id] == m[id])
    && (forall id | id in m' && id !in ids :: id in m)
  }

  /** The first i rows were released and the others wait. */
  ghost predicate ReleasedUpTo(pubs: map<Id, Row>, pubs': map<Id, Row>, jobs: map<Id, Job<Id>>, jobs': map<Id, Job<Id>>,
                               rows: seq<Id>, jobIds: seq<Id>, i: nat, now: Time)
    requires i <= |rows| == |jobIds|
  {
    && (forall k | 0 <= k < i :: Released(pubs, pubs', jobs', rows[k], jobIds[k], now))
    && (forall k | i <= k < |rows| :: rows[k] in pubs && rows[k] in pubs' && pubs'[rows[k]] == pubs[rows[k]] && jobIds[k] !in jobs')
    && OthersStay(pubs, pubs', rows) && OthersStay(jobs, jobs', jobIds)
  }

  lemma ReleaseOneMore(pubs: map<Id, Row>, pubs': map<Id, Row>, jobs: map<Id, Job<Id>>, jobs': map<Id, Job<Id>>,
                       rows: seq<Id>, jobIds: seq<Id>, i: nat, now: Time)
    requires i < |rows| == |jobIds| && Distinct(rows) && Distinct(jobIds)
    requires ReleasedUpTo(pubs, pubs', jobs, jobs', rows, jobIds, i, now)
    ensures ReleasedUpTo(pubs, pubs'[rows[i] := pubs'[rows[i]].(dueAt := now + 10 * MINUTE)],
                         jobs, jobs'[jobIds[i] := Job(rows[i], JobPending, 0, 5, now, None)], rows, jobIds, i + 1, now)
  {
    forall k | 0 <= k < |rows| && k != i ensures rows[k] != rows[i] && jobIds[k] != jobIds[i] {
      if k < i { assert rows[k] != rows[i]; } else { assert rows[i] != rows[k]; }
    }
  }

  ghost predicate ReapedUpTo(jobs: map<Id, Job<Id>>, jobs': map<Id, Job<Id>>, rows: seq<Id>, i: nat, now: Time, backoff: Id -> nat)
    requires i <= |rows|
  {
    && (forall k | 0 <= k < i :: Reaped(jobs, jobs', rows[k], now, backoff(rows[k])))
    && (forall k | i <= k < |rows| :: rows[k] in jobs && rows[k] in jobs' && jobs'[rows[k]] == jobs[rows[k]])
    && OthersStay(jobs, jobs', rows)
  }

  lemma ReapOneMore(jobs: map<Id, Job<Id>>, jobs': map<Id, Job<Id>>, job: Job<Id>, rows: seq<Id>, i: nat, now: Time, backoff: Id -> nat)
    requires i < |rows| && Distinct(rows) && ReapedUpTo(jobs, jobs', rows, i, now, backoff)
    requires CountsFailure(jobs'[rows[i]], job, now, backoff(rows[i]))
    ensures ReapedUpTo(jobs, jobs'[rows[i] := job], rows, i + 1, now, backoff)
  {
    forall k | 0 <= k < |rows| && k != i ensures rows[k] != rows[i] {
      if k < i { assert rows[k] != rows[i]; } else { assert rows[i] != rows[k]; }
    }
  }

  /** In a reachable state an open worker's row and job exist and the row is dispatching. */
  lemma HeldInRun(limit: int, history: seq<Step>, w: Id)
    requires w in Exec(Init(limit), history).workers
    ensures At(Exec(Init(limit), history), w, Dispatching)
    ensures var s := Exec(Init(limit), history);
            s.workers[w].key == s.pubs[s.workers[w].pub].key
            && (s.workers[w].phase.Posted? ==> s.workers[w].key in s.posts && s.workers[w].phase.post == s.posts[s.workers[w].key])
  {
    InitInv(limit);
    RunKeepsInv(Init(limit), history);
  }

  class Tables {
    const limit: int
    var drafts: Drafts.Drafts
    var pubs: map<Id, Row>
    var jobs: map<Id, Job<Id>>
    var counts: map<(Bucket, Time), nat>
    var posts: map<Key, PostId>
    ghost var workers: map<Id, Worker>
    ghost var grants: seq<Grant>
    ghost var calls: seq<Call>

    ghost function State(): Sys
      reads this
    {
      Sys(limit, drafts, pubs, jobs, workers, Limiter(counts, grants), posts, calls)
    }

    constructor (limit: int)
      ensures State() == Init(limit)
    {
      this.limit := limit;
      drafts, pubs, jobs, counts, posts := map[], map[], map[], map[], map[];
      workers, grants, calls := map[], [], [];
    }

    method CreatePublication(id: Id, key: Key, variant: Id, channel: Id, draft: Option<Id>, hasMedia: bool, dueAt: Option<Time>, now: Time)
      returns (r: Outcome<Id>)
      modifies this
      ensures State() == Next(old(State()), Create(id, key, variant, channel, draft, hasMedia, dueAt, now))
      ensures r == if draft.Some? && draft.value !in old(drafts) then Err(NotFound)
                   else if draft.Some? && (old(drafts)[draft.value].supersededBy.Some? || old(drafts)[draft.value].status != Drafts.Approved)
                   then Err(Validation)
                   else if !hasMedia then Err(Validation)
                   else if exists p :: p in old(pubs) && old(pubs)[p].variant == variant && old(pubs)[p].channel == channel
                                       && old(pubs)[p].status in {Scheduled, Dispatching, Failed} then Err(Conflict)
                   else if id in old(pubs) || exists p :: p in old(pubs) && old(pubs)[p].key == key then Err(Integrity)
                   else Ok(id)
      ensures r.Ok? ==> && id in pubs && pubs == old(pubs)[id := pubs[id]]
                        && pubs[id].status == Scheduled && pubs[id].dueAt == (match dueAt case None => now case Some(at) => at)
                        && pubs[id].variant == variant && pubs[id].channel == channel && pubs[id].draft == draft && pubs[id].key == key
                        && pubs[id].attempts == 0 && pubs[id].postId == None
      ensures r.Err? ==> State() == old(State())
    {
      if draft.Some? {
        if draft.value !in drafts { return Err(NotFound); }
        var d := drafts[draft.value];
        if d.supersededBy.Some? || d.status != Drafts.Approved { return Err(Validation); }
      }
      if !hasMedia { return Err(Validation); }
      if exists p :: p in pubs.Keys && pubs[p].Live() && pubs[p].variant == variant && pubs[p].channel == channel {
        return Err(Conflict);
      }
      var publication := new Publication.Create(variant, channel, draft, key, dueAt, now);
      if id in pubs || exists p :: p in pubs.Keys && pubs[p].key == key { return Err(Integrity); }
      pubs := pubs[id := publication.AsRow()];
      return Ok(id);
    }

    method CancelPublication(id: Id) returns (r: Outcome<Id>)
      modifies this
      ensures State() == Next(old(State()), Cancel(id))
      ensures r == if id !in old(pubs) then Err(NotFound) else if old(pubs)[id].status != Scheduled then Err(Validation) else Ok(id)
      ensures pubs == if r.Ok? then old(pubs)[id := old(pubs)[id].(status := Cancelled)] else old(pubs)
    {
      if id !in pubs { return Err(NotFound); }
      var publication := new Publication.Load(pubs[id]);
      var ok := publication.Cancel();
      if !ok { return Err(Validation); }
      pubs := pubs[id := publication.AsRow()];
      return Ok(id);
    }

    /** One row of the sweep: push `due_at` past the grace period and enqueue the row's job. */
    method ReleaseOne(id: Id, jobId: Id, now: Time)
      requires id in pubs && pubs[id].status == Scheduled && pubs[id].dueAt <= now && jobId !in jobs
      modifies this
      ensures State() == Next(old(State()), Release(id, jobId, now))
      ensures pubs == old(pubs)[id := old(pubs)[id].(dueAt := now + 10 * MINUTE)]
      ensures jobs == old(jobs)[jobId := Job(id, JobPending, 0, 5, now, None)]
    {
      var publication := new Publication.Load(pubs[id]);
      var ok := publication.DeferDispatch(now + GRACE);
      pubs := pubs[id := publication.AsRow()];
      jobs := jobs[jobId := Enqueued(id, now)];
    }

    method ReleaseEach(rows: seq<Id>, jobIds: seq<Id>, now: Time)
      requires Distinct(rows) && forall i | 0 <= i < |rows| :: rows[i] in pubs && pubs[rows[i]].status == Scheduled && pubs[rows[i]].dueAt <= now
      requires |jobIds| == |rows| && Distinct(jobIds) && forall i | 0 <= i < |jobIds| :: jobIds[i] !in jobs
      modifies this
      ensures State() == Exec(old(State()), ReleaseSteps(rows, jobIds, now))
      ensures forall i | 0 <= i < |rows| :: Released(old(pubs), pubs, jobs, rows[i], jobIds[i], now)
      ensures OthersStay(old(pubs), pubs, rows) && OthersStay(old(jobs), jobs, jobIds)
    {
      ghost var steps := ReleaseSteps(rows, jobIds, now);
      for i := 0 to |rows|
        invariant State() == Exec(old(State()), steps[..i])
        invariant ReleasedUpTo(old(pubs), pubs, old(jobs), jobs, rows, jobIds, i, now)
      {
        ReleaseOneMore(old(pubs), pubs, old(jobs), jobs, rows, jobIds, i, now);
        assert steps[..i + 1] == steps[..i] + [steps[i]];
        ExecAppend(old(State()), steps[..i], steps[i]);
        ReleaseOne(rows[i], jobIds[i], now);
      }
      assert steps[..|rows|] == steps;
    }

    /** The sweep, in one transaction: the due rows, earliest first and up to the limit, that no other transaction
        holds locked. Each is pushed ten minutes on and gets a job of its own. */
    method ReleaseScheduledPublications(now: Time, limit: nat, locked: set<Id>, jobIds: seq<Id>) returns (released: nat, ghost due: seq<Id>)
      requires |jobIds| >= limit && Distinct(jobIds) && forall i | 0 <= i < |jobIds| :: jobIds[i] !in jobs
      modifies this
      ensures Distinct(due) && released == |due| <= limit
      ensures forall p | p in due :: p in old(pubs) && IsDue(old(pubs)[p], now) && p !in locked
      ensures forall i, j | 0 <= i < j < |due| :: old(pubs)[due[i]].dueAt <= old(pubs)[due[j]].dueAt
      ensures forall p | p in old(pubs) && IsDue(old(pubs)[p], now) && p !in locked && p !in due ::
                |due| == limit && forall q | q in due :: old(pubs)[q].dueAt <= old(pubs)[p].dueAt
      ensures forall i | 0 <= i < |due| :: Released(old(pubs), pubs, jobs, due[i], jobIds[i], now)
      ensures OthersStay(old(pubs), pubs, due) && OthersStay(old(jobs), jobs, jobIds[..|due|])
      ensures State() == Exec(old(State()), ReleaseSteps(due, jobIds[..|due|], now))
    {
      var column := DueColumn(pubs, now, locked);
      var rows := ListOldest(column, limit);
      forall i | 0 <= i < |rows| ensures rows[i] in column { assert rows[i] in rows; }
      forall p | p in pubs && IsDue(pubs[p], now) && p !in locked && p !in rows
        ensures |rows| == limit && forall q | q in rows :: pubs[q].dueAt <= pubs[p].dueAt
      {
        assert p in column;
      }
      ReleaseEach(rows, jobIds[..|rows|], now);
      return |rows|, rows;
    }

    /** The pending job that is due the longest, rows other claimers hold locked left aside. */
    method Claim(now: Time, locked: set<Id>) returns (job: Option<Id>)
      modifies this`jobs
      ensures job.Some? ==> && job.value in old(jobs) && old(jobs)[job.value].status == JobPending && old(jobs)[job.value].runAt <= now
                            && job.value !in locked
                            && jobs == old(jobs)[job.value := old(jobs)[job.value].(status := JobRunning, claimedAt := Some(now))]
                            && forall j | j in old(jobs) && old(jobs)[j].status == JobPending && j !in locked ::
                                 old(jobs)[job.value].runAt <= old(jobs)[j].runAt
      ensures job.None? ==> jobs == old(jobs) && forall j | j in jobs && jobs[j].status == JobPending && jobs[j].runAt <= now :: j in locked
    {
      var column := ClaimableColumn(jobs, now, locked);
      var ids := ListOldest(column, 1);
      FirstListed(column, ids);
      if ids == [] {
        forall j | j in jobs && jobs[j].Claimable(now) ensures j in locked { assert j !in column; }
        return None;
      }
      forall j | j in jobs && jobs[j].status == JobPending && j !in locked ensures jobs[ids[0]].runAt <= jobs[j].runAt {
        if jobs[j].Claimable(now) { assert j in column; }
      }
      jobs := jobs[ids[0] := jobs[ids[0]].Claimed(now)];
      return Some(ids[0]);
    }

    method StartPublicationPublish(ghost w: Id, now: Time, locked: set<Id>, delay: nat) returns (job: Option<Id>, ctx: Option<Context>)
      requires w !in workers
      modifies this
      ensures job.None? ==> State() == old(State()) && ctx.None?
      ensures job.None? ==> forall j | j in jobs && jobs[j].status == JobPending && jobs[j].runAt <= now :: j in locked
      ensures job.Some? ==> State() == Next(old(State()), Start(w, job.value, now, delay)) && Enabled(old(State()), Start(w, job.value, now, delay))
      ensures job.Some? ==> forall j | j in old(jobs) && old(jobs)[j].status == JobPending && j !in locked ::
                              old(jobs)[job.value].runAt <= old(jobs)[j].runAt
      ensures ctx.Some? <==> w in workers
      ensures ctx.Some? ==> var c := ctx.value; workers[w] == Worker(c.job, c.pub, c.channel, c.key, Claimed)
      ensures ctx.Some? ==> workers == old(workers)[w := workers[w]]
    {
      job := Claim(now, locked);
      if job.None? { return job, None; }
      var p := jobs[job.value].payload;
      if p !in pubs {
        jobs := jobs[job.value := jobs[job.value].Failed(now, delay)];
        return job, None;
      }
      if pubs[p].status !in {Scheduled, Failed} {
        jobs := jobs[job.value := jobs[job.value].Failed(now, delay)];
        return job, None;
      }
      var publication := new Publication.Load(pubs[p]);
      var ok := publication.MarkDispatching();
      pubs := pubs[p := publication.AsRow()];
      workers := workers[w := Worker(job.value, p, publication.channel, publication.key, Claimed)];
      return job, Some(Context(job.value, p, publication.channel, publication.key));
    }

    method AllowCall(ghost w: Id, channel: Id, now: Time) returns (allowed: bool)
      requires w in workers && workers[w].phase == Claimed && workers[w].channel == channel
      modifies this
      ensures State() == Next(old(State()), CheckRate(w, now))
      ensures var key := (channel, FixedWindowStart(now, DAY));
              && allowed == (key in old(counts) ==> old(counts)[key] < limit)
              && counts == if allowed then old(counts)[key := if key in old(counts) then old(counts)[key] + 1 else 1] else old(counts)
      ensures grants == if allowed then old(grants) + [Grant(channel, now)] else old(grants)
      ensures workers == old(workers)[w := old(workers)[w].(phase := if allowed then Cleared(|old(grants)|)
                                                                     else RateLimited(FixedWindowStart(now, DAY) + DAY))]
    {
      var key := (channel, FixedWindowStart(now, DAY));
      ghost var c := workers[w];
      if key !in counts {
        counts, allowed := counts[key := 1], true;
      } else if counts[key] < limit {
        counts, allowed := counts[key := counts[key] + 1], true;
      } else {
        allowed := false;
      }
      if allowed {
        workers := workers[w := c.(phase := Cleared(|grants|))];
        grants := grants + [Grant(channel, now)];
      } else {
        workers := workers[w := c.(phase := RateLimited(FixedWindowStart(now, DAY) + DAY))];
      }
    }

    /** The provider's publish: it creates a post unless it already holds one for the key, and may raise
        before or after doing so. */
    method CallProvider(ghost w: Id, key: Key, answer: Answer, newPost: PostId) returns (post: Option<PostId>)
      requires w in workers && workers[w].phase.Cleared? && workers[w].key == key
      modifies this
      ensures State() == Next(old(State()), Publish(w, answer, newPost))
      ensures post.Some? <==> answer == Returns
      ensures posts == if key in old(posts) || answer == RaisesBeforePosting then old(posts) else old(posts)[key := newPost]
      ensures calls == old(calls) + [Call(old(workers)[w].pub, key, old(workers)[w].phase.ticket,
                                          if posts == old(posts) then None else Some(newPost))]
      ensures post.Some? ==> workers[w].phase == Posted(post.value) && key in posts && posts[key] == post.value
      ensures w in workers && workers == old(workers)[w := workers[w]]
    {
      ghost var c := workers[w];
      var creates := answer != RaisesBeforePosting && key !in posts;
      if creates { posts := posts[key := newPost]; }
      calls := calls + [Call(c.pub, key, c.phase.ticket, if creates then Some(newPost) else None)];
      if answer == Returns {
        workers := workers[w := c.(phase := Posted(posts[key]))];
        return Some(posts[key]);
      }
      workers := workers[w := c.(phase := Raised)];
      return None;
    }

    ghost predicate Open(w: Id, ctx: Context)
      reads this
    {
      w in workers && var c := workers[w]; c.job == ctx.job && c.pub == ctx.pub && c.channel == ctx.channel && c.key == ctx.key
    }

    method CompletePublicationPublish(ghost w: Id, ctx: Context, post: PostId, now: Time) returns (r: Outcome<Row>)
      requires Open(w, ctx) && workers[w].phase == Posted(post) && ctx.job in jobs
      modifies this
      ensures State() == Next(old(State()), Complete(w, now))
      ensures r == if ctx.pub !in old(pubs) then Err(NotFound) else if old(pubs)[ctx.pub].status != Dispatching then Err(Validation)
                   else Ok(pubs[ctx.pub])
      ensures r.Ok? ==> && pubs == old(pubs)[ctx.pub := old(pubs)[ctx.pub].(status := Published, postId := Some(post), publishedAt := Some(now))]
                        && jobs == old(jobs)[ctx.job := old(jobs)[ctx.job].(status := JobSucceeded)] && workers == old(workers) - {w}
      ensures r.Err? ==> State() == old(State())
    {
      if ctx.pub !in pubs { return Err(NotFound); }
      var publication := new Publication.Load(pubs[ctx.pub]);
      var ok := publication.MarkPublished(post, now);
      if !ok { return Err(Validation); }
      pubs := pubs[ctx.pub := publication.AsRow()];
      jobs := jobs[ctx.job := jobs[ctx.job].Completed()];
      workers := workers - {w};
      return Ok(publication.AsRow());
    }

    method FailPublicationPublish(ghost w: Id, ctx: Context, error: string, now: Time, delay: nat) returns (r: Outcome<Row>)
      requires Open(w, ctx) && workers[w].phase == Raised && ctx.job in jobs
      modifies this
      ensures State() == Next(old(State()), Fail(w, error, now, delay))
      ensures r == if ctx.pub !in old(pubs) then Err(NotFound) else if old(pubs)[ctx.pub].status != Dispatching then Err(Validation)
                   else Ok(pubs[ctx.pub])
      ensures r.Ok? ==> var job, job' := old(jobs)[ctx.job], jobs[ctx.job];
                        && jobs == old(jobs)[ctx.job := job'] && job'.attempts == job.attempts + 1
                        && (job'.status == JobDead <==> job.attempts + 1 >= job.maxAttempts)
                        && (job'.status != JobDead ==> job'.status == JobPending && job'.runAt == now + delay)
                        && pubs == old(pubs)[ctx.pub := old(pubs)[ctx.pub].(
                             status := if job'.status == JobDead then Dead else Failed, attempts := old(pubs)[ctx.pub].attempts + 1,
                             lastError := Some(error))]
                        && workers == old(workers) - {w}
      ensures r.Err? ==> State() == old(State())
    {
      if ctx.pub !in pubs { return Err(NotFound); }
      var publication := new Publication.Load(pubs[ctx.pub]);
      var failed := jobs[ctx.job].Failed(now, delay);
      var ok := publication.RecordAttemptFailure(error, failed.status == JobDead);
      if !ok { return Err(Validation); }
      jobs := jobs[ctx.job := failed];
      pubs := pubs[ctx.pub := publication.AsRow()];
      workers := workers - {w};
      return Ok(publication.AsRow());
    }

    method DeferPublicationPublish(ghost w: Id, ctx: Context, reason: string, due: Time) returns (r: Outcome<Row>)
      requires Open(w, ctx) && workers[w].phase == RateLimited(due) && ctx.job in jobs
      modifies this
      ensures State() == Next(old(State()), Defer(w, reason))
      ensures r == if ctx.pub !in old(pubs) then Err(NotFound) else if old(pubs)[ctx.pub].status != Dispatching then Err(Validation)
                   else Ok(pubs[ctx.pub])
      ensures r.Ok? ==> && pubs == old(pubs)[ctx.pub := old(pubs)[ctx.pub].(status := Scheduled, dueAt := due, lastError := Some(reason))]
                        && jobs == old(jobs)[ctx.job := old(jobs)[ctx.job].(status := JobSucceeded)] && workers == old(workers) - {w}
      ensures r.Err? ==> State() == old(State())
    {
      if ctx.pub !in pubs { return Err(NotFound); }
      var publication := new Publication.Load(pubs[ctx.pub]);
      var ok := publication.Defer(reason, due);
      if !ok { return Err(Validation); }
      pubs := pubs[ctx.pub := publication.AsRow()];
      jobs := jobs[ctx.job := jobs[ctx.job].Completed()];
      workers := workers - {w};
      return Ok(publication.AsRow());
    }

    method ReapEach(rows: seq<Id>, backoff: Id -> nat, now: Time)
      requires Distinct(rows) && forall i | 0 <= i < |rows| :: rows[i] in jobs && jobs[rows[i]].Stuck(now - STUCK_AFTER)
      modifies this
      ensures State() == Exec(old(State()), ReapSteps(rows, backoff, now))
      ensures forall i | 0 <= i < |rows| :: Reaped(old(jobs), jobs, rows[i], now, backoff(rows[i]))
      ensures OthersStay(old(jobs), jobs, rows) && pubs == old(pubs) && workers == old(workers)
    {
      ghost var steps := ReapSteps(rows, backoff, now);
      for i := 0 to |rows|
        invariant State() == Exec(old(State()), steps[..i])
        invariant ReapedUpTo(old(jobs), jobs, rows, i, now, backoff) && pubs == old(pubs) && workers == old(workers)
      {
        assert steps[..i + 1] == steps[..i] + [steps[i]];
        ExecAppend(old(State()), steps[..i], steps[i]);
        ghost var before := jobs;
        ReapOne(rows[i], now, backoff(rows[i]));
        ReapOneMore(old(jobs), before, jobs[rows[i]], rows, i, now, backoff);
      }
      assert steps[..|rows|] == steps;
    }

    /** Every job whose worker has been silent for too long, unless another transaction holds it locked. */
    method ReapStuckTaskQueueJobs(now: Time, locked: set<Id>, backoff: Id -> nat) returns (reaped: nat, ghost stuck: seq<Id>)
      modifies this
      ensures Distinct(stuck) && reaped == |stuck|
      ensures forall j :: j in stuck <==> j in old(jobs) && SilentTooLong(old(jobs)[j], now) && j !in locked
      ensures forall j | j in stuck :: Reaped(old(jobs), jobs, j, now, backoff(j))
      ensures OthersStay(old(jobs), jobs, stuck) && pubs == old(pubs) && workers == old(workers)
      ensures State() == Exec(old(State()), ReapSteps(stuck, backoff, now))
    {
      var column := StuckColumn(jobs, now - STUCK_AFTER, locked);
      var rows := ListOldest(column, |column| + 1);
      ListingIsAll(column, |column| + 1, rows);
      forall i | 0 <= i < |rows| ensures rows[i] in column { assert rows[i] in rows; }
      ReapEach(rows, backoff, now);
      return |rows|, rows;
    }

    /** `fail`, on the silent worker's behalf. */
    method ReapOne(id: Id, now: Time, delay: nat)
      requires id in jobs && jobs[id].Stuck(now - STUCK_AFTER)
      modifies this
      ensures State() == Next(old(State()), Reap(id, now, delay))
      ensures jobs == old(jobs)[id := jobs[id]] && Reaped(old(jobs), jobs, id, now, delay)
      ensures pubs == old(pubs) && workers == old(workers)
    {
      jobs := jobs[id := jobs[id].Failed(now, delay)];
    }

    // -------------------------------------------------------------- the agent, one effect at a time

    /** The tables are what the run `history` leaves behind. */
    ghost predicate Reached(history: seq<Step>)
      reads this
    {
      State() == Exec(Init(limit), history)
    }

    method CallStep(ghost w: Id, ctx: Context, check: Check, answer: Answer, newPost: PostId, ghost history: seq<Step>)
      returns (post: Option<PostId>, ghost step: Step)
      requires Reached(history) && Open(w, ctx) && workers[w].phase.Cleared?
      modifies this
      ensures Reached(history + [step]) && Open(w, ctx)
      ensures post.Some? <==> check == Valid && answer == Returns
      ensures workers[w].phase == if post.Some? then Posted(post.value) else Raised
      ensures post.Some? ==> ctx.key in posts && posts[ctx.key] == post.value
      ensures check != Valid ==> calls == old(calls)
    {
      step := if check == Valid then Publish(w, answer, newPost) else Refuse(w);
      ExecAppend(Init(limit), history, step);
      if check == Valid {
        post := CallProvider(w, ctx.key, answer, newPost);
      } else {
        workers := workers[w := workers[w].(phase := Raised)];
        post := None;
      }
    }

    method SettleStep(ghost w: Id, ctx: Context, post: Option<PostId>, settleAt: Time, delay: nat, ghost history: seq<Step>)
      returns (row: Row, ghost step: Step)
      requires Reached(history) && Open(w, ctx)
      requires workers[w].phase == if post.Some? then Posted(post.value) else Raised
      modifies this
      ensures Reached(history + [step]) && w !in workers && calls == old(calls) && posts == old(posts)
      ensures if post.Some? then row.status == Published && row.postId == post else row.status in {Failed, Dead}
      ensures row.key == ctx.key
    {
      HeldInRun(limit, history, w);
      if post.Some? {
        step := Complete(w, settleAt);
        ExecAppend(Init(limit), history, step);
        var r := CompletePublicationPublish(w, ctx, post.value, settleAt);
        row := r.result;
      } else {
        step := Fail(w, "publish failed", settleAt, delay);
        ExecAppend(Init(limit), history, step);
        var r := FailPublicationPublish(w, ctx, "publish failed", settleAt, delay);
        row := r.result;
      }
    }

    method DeferStep(ghost w: Id, ctx: Context, windowEnd: Time, ghost history: seq<Step>) returns (row: Row, ghost step: Step)
      requires Reached(history) && Open(w, ctx) && workers[w].phase == RateLimited(windowEnd)
      modifies this
      ensures Reached(history + [step]) && w !in workers && calls == old(calls) && posts == old(posts)
      ensures row.status == Scheduled && row.dueAt == windowEnd
    {
      HeldInRun(limit, history, w);
      var reason := "Per-account publish rate limit exceeded for the day.";
      step := Defer(w, reason);
      ExecAppend(Init(limit), history, step);
      var r := DeferPublicationPublish(w, ctx, reason, windowEnd);
      row := r.result;
    }

    method StartStep(ghost w: Id, now: Time, locked: set<Id>, delay: nat, ghost history: seq<Step>) returns (ctx: Option<Context>, ghost steps: seq<Step>)
      requires Reached(history) && w !in workers
      modifies this
      ensures Reached(history + steps) && calls == old(calls) && posts == old(posts)
      ensures ctx.Some? <==> w in workers
      ensures ctx.Some? ==> Open(w, ctx.value) && workers[w].phase == Claimed
    {
      var job;
      job, ctx := StartPublicationPublish(w, now, locked, delay);
      if job.Some? {
        steps := [Start(w, job.value, now, delay)];
        ExecAppend(Init(limit), history, steps[0]);
      } else {
        steps := [];
        assert history + steps == history;
      }
    }

    method RateStep(ghost w: Id, ctx: Context, now: Time, ghost history: seq<Step>) returns (allowed: bool, ghost step: Step)
      requires Reached(history) && Open(w, ctx) && workers[w].phase == Claimed
      modifies this
      ensures Reached(history + [step]) && Open(w, ctx) && calls == old(calls) && posts == old(posts)
      ensures if allowed then workers[w].phase.Cleared? else workers[w].phase == RateLimited(FixedWindowStart(now, DAY) + DAY)
    {
      step := CheckRate(w, now);
      ExecAppend(Init(limit), history, step);
      allowed := AllowCall(w, ctx.channel, now);
    }

    /** The agent, uninterrupted, in any reachable state: a run of the protocol that opens and closes one worker.
        A poll that dispatches nothing returns None; otherwise the row ends published, failed, dead, or
        scheduled for the next window without the provider having been called. */
    method PublishChannelAgentRun(ghost w: Id, locked: set<Id>, claimAt: Time, checkAt: Time, settleAt: Time, check: Check, answer: Answer,
                                  newPost: PostId, claimDelay: nat, failDelay: nat, ghost history: seq<Step>)
      returns (row: Option<Row>, ghost steps: seq<Step>)
      requires Reached(history) && w !in workers
      modifies this
      ensures Reached(history + steps) && w !in workers
      ensures row.None? ==> calls == old(calls) && posts == old(posts)
      ensures row.Some? ==>
                if row.value.status == Scheduled
                then calls == old(calls) && row.value.dueAt == FixedWindowStart(checkAt, DAY) + DAY
                else row.value.status in {Published, Failed, Dead} && (row.value.status == Published <==> check == Valid && answer == Returns)
      ensures row.Some? && row.value.status == Published ==> row.value.key in posts && row.value.postId == Some(posts[row.value.key])
      ensures row.Some? && check != Valid ==> calls == old(calls)
    {
      var ctx;
      ctx, steps := StartStep(w, claimAt, locked, claimDelay, history);
      if ctx.None? { return None, steps; }

      ghost var step;
      var allowed;
      allowed, step := RateStep(w, ctx.value, checkAt, history + steps);
      assert history + steps + [step] == history + (steps + [step]);
      steps := steps + [step];
      var settled: Row;
      if !allowed {
        settled, step := DeferStep(w, ctx.value, FixedWindowStart(checkAt, DAY) + DAY, history + steps);
      } else {
        var post;
        post, step := CallStep(w, ctx.value, check, answer, newPost, history + steps);
        assert history + steps + [step] == history + (steps + [step]);
        steps := steps + [step];
        settled, step := SettleStep(w, ctx.value, post, settleAt, failDelay, history + steps);
      }
      assert history + steps + [step] == history + (steps + [step]);
      return Some(settled), steps + [step];
    }
  }
}
