/** The generation pipeline as a transition system: reserve quota, fan out, render, check quality, retry,
    roll up, settle. A step is one transaction; any step may follow any other, any number of workers may
    attempt the same step, and a step that raises changes nothing. Rows of requests and items are never
    deleted, so both tables are logs and a row's position is its id. */
module GenerationPipeline {
  import opened Base
  import opened SupersedeChain
  import opened GenerationRows
  import opened RollupAndLadder

  datatype Quota = Quota(id: Id, limit: int, reserved: int, committed: int)

  datatype Gen = Gen(quotas: map<Period, Quota>, reqs: seq<Request>, items: seq<Item>, images: map<Id, Image>)

  /** What fan-out found for one required slot: everything an item needs, or a reason to raise. */
  datatype Plan = Ready(template: Id, prompt: string, inputs: seq<Id>) | Blocked

  datatype Step =
    | EnsurePeriod(period: Period, id: Id, limit: nat)
    | CreateRequest(variant: Id, period: Period, required: seq<Slot>)
    | FanOut(req: nat, plans: seq<Plan>, provider: string, model: string)
    | StartRender(item: nat)
    | SucceedRender(item: nat, asset: Id, image: Id)
    | FailRender(item: nat, error: Failure, jobDead: bool)
    | RecordQc(image: Id, verdict: QcVerdict, autoApprove: bool, templates: seq<Template>, recomposed: Option<string>, now: Time)
    | ApproveImage(image: Id, approver: Id, now: Time)
    | RejectImage(image: Id, reason: string)
    | Reconcile(req: nat, now: Time)

  const INIT := Gen(map[], [], [], map[])

  // ---------------------------------------------------------------- reading the tables

  /** `list_for_request`. */
  function RowsOf(items: seq<Item>, r: nat): seq<Item> {
    if items == [] then []
    else
      var last := items[|items| - 1];
      RowsOf(items[..|items| - 1], r) + (if last.lineage.req == r then [last] else [])
  }

  function Attempts(items: seq<Item>, r: nat, slot: Slot): seq<Item> { SlotItems(RowsOf(items, r), slot) }

  function RollupNow(s: Gen, r: nat): Rollup
    requires r < |s.reqs|
  {
    RollupOf(s.reqs[r].required, RowsOf(s.items, r))
  }

  function Links(images: map<Id, Image>): Table<ImageOwner> {
    map id | id in images :: Link(images[id].owner, images[id].supersededBy)
  }

  // ---------------------------------------------------------------- guards

  predicate ItemIs(s: Gen, i: nat, statuses: set<ItemStatus>) { i < |s.items| && s.items[i].status in statuses }

  predicate ImageIs(s: Gen, m: Id, status: ImageStatus) {
    m in s.images && s.images[m].status == status && s.images[m].item < |s.items|
  }

  /** The rung the failed image's item leads to. */
  function RungAfter(s: Gen, m: Id, templates: seq<Template>): Option<Rung>
    requires m in s.images && s.images[m].item < |s.items|
  {
    var l := s.items[s.images[m].item].lineage;
    var attempts := Attempts(s.items, l.req, l.slot);
    if attempts == [] then None else NextRung(attempts, templates)
  }

  /** The reservation row a settlement must find: the one the request was charged to. */
  predicate QuotaMatches(s: Gen, r: nat)
    requires r < |s.reqs|
  {
    s.reqs[r].reservation.Some? ==>
      s.reqs[r].period in s.quotas && s.quotas[s.reqs[r].period].id == s.reqs[r].reservation.value
  }

  predicate Enabled(s: Gen, step: Step) {
    match step
    case EnsurePeriod(period, _, _) => period !in s.quotas
    case CreateRequest(_, period, required) =>
      required != [] && period in s.quotas && s.quotas[period].limit - s.quotas[period].reserved >= |required|
    case FanOut(r, plans, _, _) =>
      r < |s.reqs| && s.reqs[r].status == Queued && |plans| == |s.reqs[r].required|
      && (forall k | 0 <= k < |plans| :: plans[k].Ready?) && Distinct(s.reqs[r].required)
    case StartRender(i) => ItemIs(s, i, {Pending, Failed})
    case SucceedRender(i, _, m) => ItemIs(s, i, {Running}) && s.items[i].lineage.req < |s.reqs| && m !in s.images
    case FailRender(i, _, _) => ItemIs(s, i, {Running})
    case RecordQc(m, verdict, _, templates, recomposed, _) =>
      ImageIs(s, m, PendingQc)
      && (!verdict.passed ==> var rung := RungAfter(s, m, templates); rung.Some? && !rung.value.reusePrompt ==> recomposed.Some?)
    case ApproveImage(m, _, _) => ImageIs(s, m, PendingApproval)
    case RejectImage(m, _) => ImageIs(s, m, PendingApproval)
    case Reconcile(r, _) => r < |s.reqs| && s.reqs[r].status == InProgress && RollupNow(s, r).status.Some? && QuotaMatches(s, r)
  }

  // ---------------------------------------------------------------- effects

  function FirstAttempts(r: nat, required: seq<Slot>, plans: seq<Plan>, provider: string, model: string): seq<Item>
    requires |plans| == |required| && forall k | 0 <= k < |plans| :: plans[k].Ready?
  {
    seq(|required|, k requires 0 <= k < |required| =>
      NewItem(Lineage(r, required[k], plans[k].template, 1, provider, model, plans[k].prompt, plans[k].inputs)))
  }

  function Retry(l: Lineage, rung: Rung, recomposed: Option<string>): Item
    requires !rung.reusePrompt ==> recomposed.Some?
  {
    NewItem(l.(template := rung.template, attempt := rung.attempt,
               prompt := if rung.reusePrompt then l.prompt else recomposed.value))
  }

  function SetItem(s: Gen, i: nat, item: Item): Gen
    requires i < |s.items|
  {
    s.(items := s.items[i := item])
  }

  function SetImage(s: Gen, m: Id, image: Image): Gen
    requires m in s.images
  {
    s.(images := s.images[m := image])
  }

  function ReplaceImage(images: map<Id, Image>, live: Option<Id>, m: Id, image: Image): map<Id, Image>
    requires live.Some? ==> live.value in images
  {
    (if live.Some? then images[live.value := images[live.value].(supersededBy := Some(m))] else images)[m := image]
  }

  ghost function SucceedEffect(s: Gen, i: nat, asset: Id, m: Id): Gen
    requires Enabled(s, SucceedRender(i, asset, m))
  {
    var owner := ImageOwner(s.reqs[s.items[i].lineage.req].variant, s.items[i].lineage.slot);
    s.(items := s.items[i := s.items[i].(status := Succeeded, output := Some(asset))],
       images := ReplaceImage(s.images, LiveOf(Links(s.images), owner), m, NewImage(owner, i, asset)))
  }

  function QcEffect(s: Gen, m: Id, verdict: QcVerdict, autoApprove: bool, templates: seq<Template>, recomposed: Option<string>, now: Time): Gen
    requires Enabled(s, RecordQc(m, verdict, autoApprove, templates, recomposed, now))
  {
    var judged := s.images[m].Judged(verdict);
    if verdict.passed then SetImage(s, m, if autoApprove then judged.ApprovedAs(None, now) else judged)
    else
      var rung := RungAfter(s, m, templates);
      if rung.None? then SetImage(s, m, judged.Escalated(verdict.EscalationReason()))
      else SetImage(s, m, judged).(items := s.items + [Retry(s.items[s.images[m].item].lineage, rung.value, recomposed)])
  }

  /** Settling moves the request and splits its reservation: succeeded slots are committed, failed ones released. */
  function SettleEffect(s: Gen, r: nat, now: Time): Gen
    requires Enabled(s, Reconcile(r, now))
  {
    var rollup := RollupNow(s, r);
    var req := s.reqs[r];
    var settled := s.(reqs := s.reqs[r := req.(status := rollup.status.value, completedAt := Some(now))]);
    if req.reservation.None? then settled
    else
      var q := s.quotas[req.period];
      settled.(quotas := s.quotas[req.period := q.(committed := q.committed + rollup.succeeded, reserved := q.reserved - rollup.failed)])
  }

  ghost function Next(s: Gen, step: Step): Gen {
    if !Enabled(s, step) then s else
    match step
    case EnsurePeriod(period, id, limit) => s.(quotas := s.quotas[period := Quota(id, limit, 0, 0)])
    case CreateRequest(variant, period, required) =>
      var q := s.quotas[period];
      s.(quotas := s.quotas[period := q.(reserved := q.reserved + |required|)],
         reqs := s.reqs + [Request(variant, period, required, Some(q.id), Queued, None)])
    case FanOut(r, plans, provider, model) =>
      s.(reqs := s.reqs[r := s.reqs[r].(status := InProgress)],
         items := s.items + FirstAttempts(r, s.reqs[r].required, plans, provider, model))
    case StartRender(i) => SetItem(s, i, s.items[i].(status := Running))
    case SucceedRender(i, asset, m) => SucceedEffect(s, i, asset, m)
    case FailRender(i, error, jobDead) =>
      SetItem(s, i, s.items[i].(status := if jobDead then Dead else Failed, failure := Some(error)))
    case RecordQc(m, verdict, auto, templates, recomposed, now) => QcEffect(s, m, verdict, auto, templates, recomposed, now)
    case ApproveImage(m, approver, now) => SetImage(s, m, s.images[m].ApprovedAs(Some(approver), now))
    case RejectImage(m, reason) => SetImage(s, m, s.images[m].RejectedFor(reason))
    case Reconcile(r, now) => SettleEffect(s, r, now)
  }

  ghost function Exec(s: Gen, steps: seq<Step>): Gen {
    if steps == [] then s else Next(Exec(s, steps[..|steps| - 1]), steps[|steps| - 1])
  }

  // ---------------------------------------------------------------- invariants of items and images

  predicate IsAttempt(items: seq<Item>, i: nat, r: nat, slot: Slot, k: nat) {
    i < |items| && items[i].lineage.req == r && items[i].lineage.slot == slot && items[i].lineage.attempt == k
  }

  ghost predicate ItemsBelong(s: Gen) {
    forall i | 0 <= i < |s.items| ::
      var l := s.items[i].lineage;
      l.req < |s.reqs| && s.reqs[l.req].status != Queued && l.slot in s.reqs[l.req].required && 1 <= l.attempt <= 3
  }

  ghost predicate AttemptsUnique(items: seq<Item>) {
    forall i, j | 0 <= i < |items| && 0 <= j < |items| && items[i].lineage.req == items[j].lineage.req
                  && items[i].lineage.slot == items[j].lineage.slot && items[i].lineage.attempt == items[j].lineage.attempt :: i == j
  }

  ghost predicate HasAttempt(items: seq<Item>, r: nat, slot: Slot, k: nat) {
    exists i: nat :: IsAttempt(items, i, r, slot, k)
  }

  ghost predicate EverySlotStarted(s: Gen) {
    forall r, slot | 0 <= r < |s.reqs| && s.reqs[r].status != Queued && slot in s.reqs[r].required :: HasAttempt(s.items, r, slot, 1)
  }

  /** Attempt j is the one a retry grew from: it rendered, its image failed QC, and the retry kept its inputs,
      provider and model, with the same template and prompt at attempt two and another template at three. */
  predicate GrewFrom(l: Lineage, prev: Item) {
    && prev.status == Succeeded && prev.lineage.req == l.req && prev.lineage.slot == l.slot && prev.lineage.attempt + 1 == l.attempt
    && prev.lineage.inputs == l.inputs && prev.lineage.provider == l.provider && prev.lineage.model == l.model
    && (l.attempt == 2 ==> prev.lineage.template == l.template && prev.lineage.prompt == l.prompt)
    && (l.attempt == 3 ==> prev.lineage.template != l.template)
  }

  predicate FailedImageOf(s: Gen, m: Id, j: nat) {
    m in s.images && s.images[m].item == j && s.images[m].status == QcFailed
  }

  ghost predicate HasOrigin(s: Gen, l: Lineage) {
    exists j, m :: 0 <= j < |s.items| && GrewFrom(l, s.items[j]) && FailedImageOf(s, m, j)
  }

  ghost predicate RetriesGrew(s: Gen) {
    forall i | 0 <= i < |s.items| && s.items[i].lineage.attempt > 1 :: HasOrigin(s, s.items[i].lineage)
  }

  ghost predicate ImagesBelong(s: Gen) {
    forall m | m in s.images ::
      var image := s.images[m];
      && image.item < |s.items| && s.items[image.item].status == Succeeded && s.items[image.item].lineage.req < |s.reqs|
      && image.owner == ImageOwner(s.reqs[s.items[image.item].lineage.req].variant, s.items[image.item].lineage.slot)
  }

  ghost predicate OneImagePerItem(s: Gen) {
    forall m, n | m in s.images && n in s.images && s.images[m].item == s.images[n].item :: m == n
  }

  /** An image stays QC-failed only when the ladder moved on from it. */
  ghost predicate FailedImagesRetried(s: Gen) {
    forall m | m in s.images && s.images[m].status == QcFailed && s.images[m].item < |s.items| ::
      var l := s.items[s.images[m].item].lineage; HasAttempt(s.items, l.req, l.slot, l.attempt + 1)
  }

  ghost predicate Ladder(s: Gen) {
    && ItemsBelong(s) && AttemptsUnique(s.items) && EverySlotStarted(s) && RetriesGrew(s)
    && ImagesBelong(s) && OneImagePerItem(s) && FailedImagesRetried(s)
  }

  // ---------------------------------------------------------------- the ladder's latest rung

  lemma {:induction false} InRowsOf(items: seq<Item>, r: nat, x: Item)
    ensures x in RowsOf(items, r) <==> x in items && x.lineage.req == r
  {
    if items != [] {
      InRowsOf(items[..|items| - 1], r, x);
      assert items == items[..|items| - 1] + [items[|items| - 1]];
    }
  }

  lemma InAttempts(items: seq<Item>, r: nat, slot: Slot, x: Item)
    ensures x in Attempts(items, r, slot) <==> x in items && x.lineage.req == r && x.lineage.slot == slot
  {
    InSlotItems(RowsOf(items, r), slot, x);
    InRowsOf(items, r, x);
  }

  /** The item a retry grew from, and the image that failed. */
  lemma Origin(s: Gen, i: nat) returns (j: nat, m: Id)
    requires RetriesGrew(s) && i < |s.items| && s.items[i].lineage.attempt > 1
    ensures j < |s.items| && GrewFrom(s.items[i].lineage, s.items[j]) && FailedImageOf(s, m, j)
  {
    assert HasOrigin(s, s.items[i].lineage);
    j, m :| 0 <= j < |s.items| && GrewFrom(s.items[i].lineage, s.items[j]) && FailedImageOf(s, m, j);
  }

  /** Going down from attempt k, every attempt a < k of the slot is there. */
  lemma {:induction false} AttemptsBelow(s: Gen, i: nat, a: nat)
    requires RetriesGrew(s) && i < |s.items| && 1 <= a <= s.items[i].lineage.attempt
    ensures HasAttempt(s.items, s.items[i].lineage.req, s.items[i].lineage.slot, a)
    decreases s.items[i].lineage.attempt
  {
    var l := s.items[i].lineage;
    if l.attempt == a {
      assert IsAttempt(s.items, i, l.req, l.slot, a);
    } else {
      var j, m := Origin(s, i);
      AttemptsBelow(s, j, a);
    }
  }

  /** An item with a later attempt of its slot rendered an image that failed QC and was retried. */
  lemma LaterAttemptMeansFailedImage(s: Gen, i: nat, j: nat) returns (m: Id)
    requires RetriesGrew(s) && AttemptsUnique(s.items) && i < |s.items| && j < |s.items| && s.items[i].lineage.attempt >= 1
    requires s.items[i].lineage.req == s.items[j].lineage.req && s.items[i].lineage.slot == s.items[j].lineage.slot
    requires s.items[i].lineage.attempt < s.items[j].lineage.attempt
    ensures FailedImageOf(s, m, i) && s.items[i].status == Succeeded
  {
    var l := s.items[i].lineage;
    AttemptsBelow(s, j, l.attempt + 1);
    var k: nat :| IsAttempt(s.items, k, l.req, l.slot, l.attempt + 1);
    var i';
    i', m := Origin(s, k);
    assert i' == i;
  }

  /** The ladder's latest item is the failed image's own item. */
  lemma LatestIsOwn(s: Gen, m: Id)
    requires Ladder(s) && ImageIs(s, m, PendingQc)
    ensures var own := s.items[s.images[m].item];
            var attempts := Attempts(s.items, own.lineage.req, own.lineage.slot);
            attempts != [] && Latest(attempts) == own
  {
    var i := s.images[m].item;
    var own := s.items[i];
    var attempts := Attempts(s.items, own.lineage.req, own.lineage.slot);
    InAttempts(s.items, own.lineage.req, own.lineage.slot, own);
    var latest := Latest(attempts);
    InAttempts(s.items, own.lineage.req, own.lineage.slot, latest);
    var j :| 0 <= j < |s.items| && s.items[j] == latest;
    if own.lineage.attempt < latest.lineage.attempt {
      var n := LaterAttemptMeansFailedImage(s, i, j);
      assert false;
    }
    assert i == j;
  }

  // ---------------------------------------------------------------- what a step does to the tables

  /** A request's terms are immutable, and it never goes back to the queue. */
  predicate SameTerms(q: Request, q': Request) {
    && q'.(status := Queued, completedAt := None) == q.(status := Queued, completedAt := None)
    && (q.status != Queued ==> q'.status != Queued)
  }

  lemma RequestStays(s: Gen, step: Step, r: nat)
    requires r < |s.reqs|
    ensures r < |Next(s, step).reqs| && SameTerms(s.reqs[r], Next(s, step).reqs[r])
  {}

  lemma RequestsGrow(s: Gen, step: Step)
    ensures |s.reqs| <= |Next(s, step).reqs|
    ensures forall r | 0 <= r < |s.reqs| :: SameTerms(s.reqs[r], Next(s, step).reqs[r])
    ensures forall r | |s.reqs| <= r < |Next(s, step).reqs| :: Next(s, step).reqs[r].status == Queued
  {
    forall r | 0 <= r < |s.reqs| ensures r < |Next(s, step).reqs| && SameTerms(s.reqs[r], Next(s, step).reqs[r]) {
      RequestStays(s, step, r);
    }
  }

  /** Lineage is immutable; succeeded and dead are final. */
  lemma ItemsGrow(s: Gen, step: Step)
    ensures |s.items| <= |Next(s, step).items|
    ensures forall i | 0 <= i < |s.items| :: Next(s, step).items[i].lineage == s.items[i].lineage
    ensures forall i | 0 <= i < |s.items| && s.items[i].status in {Succeeded, Dead} :: Next(s, step).items[i].status == s.items[i].status
  {}

  /** New items are the first attempts of a fan-out or the one retry of a failed QC. */
  lemma NewItems(s: Gen, step: Step, i: nat)
    requires |s.items| <= i < |Next(s, step).items|
    ensures Enabled(s, step)
    ensures step.FanOut? || (step.RecordQc? && !step.verdict.passed)
    ensures step.FanOut? ==>
              var k := i - |s.items|; var l := Next(s, step).items[i].lineage;
              k < |s.reqs[step.req].required| && l.req == step.req && l.slot == s.reqs[step.req].required[k] && l.attempt == 1
    ensures step.RecordQc? ==>
              var rung := RungAfter(s, step.image, step.templates);
              rung.Some? && i == |s.items|
              && Next(s, step).items[i] == Retry(s.items[s.images[step.image].item].lineage, rung.value, step.recomposed)
              && Next(s, step).images == s.images[step.image := s.images[step.image].Judged(step.verdict)]
  {}

  /** The retry that a failed QC adds, in terms of the failed image's own item. */
  lemma RetryGrewFromOwn(s: Gen, step: Step)
    requires Ladder(s) && Enabled(s, step) && step.RecordQc? && !step.verdict.passed
    requires RungAfter(s, step.image, step.templates).Some?
    ensures var own := s.items[s.images[step.image].item];
            var l := Retry(own.lineage, RungAfter(s, step.image, step.templates).value, step.recomposed).lineage;
            GrewFrom(l, own) && l.attempt <= 3
  {
    var own := s.items[s.images[step.image].item];
    LatestIsOwn(s, step.image);
    RetryGrows(own, Attempts(s.items, own.lineage.req, own.lineage.slot), step.templates, step.recomposed);
  }

  lemma RetryGrows(own: Item, attempts: seq<Item>, templates: seq<Template>, recomposed: Option<string>)
    requires attempts != [] && Latest(attempts) == own && own.status == Succeeded && own.lineage.attempt >= 1
    requires NextRung(attempts, templates).Some?
    requires !NextRung(attempts, templates).value.reusePrompt ==> recomposed.Some?
    ensures var l := Retry(own.lineage, NextRung(attempts, templates).value, recomposed).lineage; GrewFrom(l, own) && l.attempt <= 3
  {}

  lemma KeepsItemsBelong(s: Gen, step: Step)
    requires Ladder(s)
    ensures ItemsBelong(Next(s, step))
  {
    var s' := Next(s, step);
    RequestsGrow(s, step);
    ItemsGrow(s, step);
    forall i | 0 <= i < |s'.items|
      ensures var l := s'.items[i].lineage;
              l.req < |s'.reqs| && s'.reqs[l.req].status != Queued && l.slot in s'.reqs[l.req].required && 1 <= l.attempt <= 3
    {
      if i >= |s.items| {
        NewItems(s, step, i);
        if step.RecordQc? { RetryGrewFromOwn(s, step); }
      }
    }
  }

  lemma KeepsAttemptsUnique(s: Gen, step: Step)
    requires Ladder(s)
    ensures AttemptsUnique(Next(s, step).items)
  {
    var s' := Next(s, step);
    ItemsGrow(s, step);
    forall i, j | 0 <= i < j < |s'.items| && s'.items[i].lineage.req == s'.items[j].lineage.req
                  && s'.items[i].lineage.slot == s'.items[j].lineage.slot
      ensures s'.items[i].lineage.attempt != s'.items[j].lineage.attempt
    {
      if j >= |s.items| { NewAttemptDiffers(s, step, i, j); }
    }
  }

  lemma NewAttemptDiffers(s: Gen, step: Step, i: nat, j: nat)
    requires Ladder(s) && i < j && |s.items| <= j < |Next(s, step).items|
    requires var items := Next(s, step).items;
             items[i].lineage.req == items[j].lineage.req && items[i].lineage.slot == items[j].lineage.slot
    ensures Next(s, step).items[i].lineage.attempt != Next(s, step).items[j].lineage.attempt
  {
    NewItems(s, step, j);
    ItemsGrow(s, step);
    if step.FanOut? {
      if i >= |s.items| { NewItems(s, step, i); }
    } else {
      RetryGrewFromOwn(s, step);
      RetryIsNew(s, step, i);
    }
  }

  /** No item of the slot has the retry's attempt number yet. */
  lemma RetryIsNew(s: Gen, step: Step, i: nat)
    requires Ladder(s) && Enabled(s, step) && step.RecordQc? && !step.verdict.passed
    requires RungAfter(s, step.image, step.templates).Some? && i < |s.items|
    requires var own := s.items[s.images[step.image].item].lineage;
             s.items[i].lineage.req == own.req && s.items[i].lineage.slot == own.slot
    ensures s.items[i].lineage.attempt <= s.items[s.images[step.image].item].lineage.attempt
  {
    LatestIsOwn(s, step.image);
    var own := s.items[s.images[step.image].item].lineage;
    InAttempts(s.items, own.req, own.slot, s.items[i]);
  }

  lemma KeepsEverySlotStarted(s: Gen, step: Step)
    requires Ladder(s)
    ensures EverySlotStarted(Next(s, step))
  {
    var s' := Next(s, step);
    RequestsGrow(s, step);
    ItemsGrow(s, step);
    forall r, slot | 0 <= r < |s'.reqs| && s'.reqs[r].status != Queued && slot in s'.reqs[r].required
      ensures HasAttempt(s'.items, r, slot, 1)
    {
      if s.reqs[r].status != Queued {
        AttemptStays(s, step, r, slot, 1);
      } else {
        FanOutStarts(s, step, r, slot);
      }
    }
  }

  lemma AttemptStays(s: Gen, step: Step, r: nat, slot: Slot, k: nat)
    requires HasAttempt(s.items, r, slot, k)
    ensures HasAttempt(Next(s, step).items, r, slot, k)
  {
    ItemsGrow(s, step);
    var i: nat :| IsAttempt(s.items, i, r, slot, k);
    assert IsAttempt(Next(s, step).items, i, r, slot, k);
  }

  lemma FanOutStarts(s: Gen, step: Step, r: nat, slot: Slot)
    requires r < |s.reqs| && s.reqs[r].status == Queued && slot in s.reqs[r].required
    requires r < |Next(s, step).reqs| && Next(s, step).reqs[r].status != Queued
    ensures HasAttempt(Next(s, step).items, r, slot, 1)
  {
    assert step.FanOut? && step.req == r && Enabled(s, step);
    var k :| 0 <= k < |s.reqs[r].required| && s.reqs[r].required[k] == slot;
    assert IsAttempt(Next(s, step).items, |s.items| + k, r, slot, 1);
  }

  lemma KeepsRetriesGrew(s: Gen, step: Step)
    requires Ladder(s)
    ensures RetriesGrew(Next(s, step))
  {
    var s' := Next(s, step);
    ItemsGrow(s, step);
    forall i | 0 <= i < |s'.items| && s'.items[i].lineage.attempt > 1
      ensures HasOrigin(s', s'.items[i].lineage)
    {
      if i < |s.items| {
        OldRetryGrew(s, step, i);
      } else {
        NewRetryGrew(s, step, i);
      }
    }
  }

  lemma OldRetryGrew(s: Gen, step: Step, i: nat)
    requires RetriesGrew(s) && i < |s.items| && s.items[i].lineage.attempt > 1
    ensures HasOrigin(Next(s, step), s.items[i].lineage)
  {
    var s' := Next(s, step);
    var j, m := Origin(s, i);
    ItemsGrow(s, step);
    FailedImageStays(s, step, m, j);
    assert GrewFrom(s.items[i].lineage, s'.items[j]) && FailedImageOf(s', m, j);
  }

  lemma NewRetryGrew(s: Gen, step: Step, i: nat)
    requires Ladder(s) && |s.items| <= i < |Next(s, step).items| && Next(s, step).items[i].lineage.attempt > 1
    ensures HasOrigin(Next(s, step), Next(s, step).items[i].lineage)
  {
    var s' := Next(s, step);
    NewItems(s, step, i);
    RetryGrewFromOwn(s, step);
    var j := s.images[step.image].item;
    assert s'.items[j] == s.items[j];
    assert GrewFrom(s'.items[i].lineage, s'.items[j]) && FailedImageOf(s', step.image, j);
  }

  lemma FailedImageStays(s: Gen, step: Step, m: Id, j: nat)
    requires FailedImageOf(s, m, j)
    ensures FailedImageOf(Next(s, step), m, j)
  {}

  lemma KeepsImagesBelong(s: Gen, step: Step)
    requires Ladder(s)
    ensures ImagesBelong(Next(s, step))
  {
    RequestsGrow(s, step);
    ItemsGrow(s, step);
    ImagesGrow(s, step);
  }

  /** An image is new and belongs to the item that has just succeeded, or it keeps its owner and item. */
  lemma ImagesGrow(s: Gen, step: Step)
    ensures forall m | m in Next(s, step).images ::
      var image := Next(s, step).images[m];
      if m in s.images then image.owner == s.images[m].owner && image.item == s.images[m].item
      else step.SucceedRender? && Enabled(s, step) && m == step.image && image.item == step.item && image.status == PendingQc
           && image.owner == ImageOwner(s.reqs[s.items[step.item].lineage.req].variant, s.items[step.item].lineage.slot)
           && Next(s, step).items[step.item].status == Succeeded && s.items[step.item].status == Running
  {}

  lemma KeepsOneImagePerItem(s: Gen, step: Step)
    requires Ladder(s)
    ensures OneImagePerItem(Next(s, step))
  {
    ImagesGrow(s, step);
  }

  ghost predicate RetriedBy(s: Gen, s': Gen, m: Id)
    requires m in s.images
  {
    s.images[m].item < |s.items|
    && var l := s.items[s.images[m].item].lineage; HasAttempt(s'.items, l.req, l.slot, l.attempt + 1)
  }

  /** How a failed image of the next state relates to the state before. */
  ghost predicate FailedImageEvolves(s: Gen, s': Gen, m: Id) {
    m in s.images && m in s'.images && s.images[m].item == s'.images[m].item
    && (s.images[m].status == QcFailed || RetriedBy(s, s', m))
  }

  ghost predicate ItemsEvolve(s: Gen, s': Gen) {
    |s.items| <= |s'.items| && forall i | 0 <= i < |s.items| :: s'.items[i].lineage == s.items[i].lineage
  }

  lemma FailedImageEvolution(s: Gen, step: Step, m: Id)
    requires Ladder(s) && m in Next(s, step).images && Next(s, step).images[m].status == QcFailed
    ensures FailedImageEvolves(s, Next(s, step), m)
  {
    ImageStays(s, step, m);
    if s.images[m].status != QcFailed { NewlyFailedWasRetried(s, step, m); }
  }

  lemma ImageStays(s: Gen, step: Step, m: Id)
    requires m in Next(s, step).images && Next(s, step).images[m].status == QcFailed
    ensures m in s.images && s.images[m].item == Next(s, step).images[m].item
  {}

  lemma StillRetried(s: Gen, s': Gen, m: Id)
    requires ItemsEvolve(s, s') && FailedImagesRetried(s) && ImagesBelong(s)
    requires m in s'.images && FailedImageEvolves(s, s', m)
    ensures s'.images[m].item < |s'.items|
    ensures var l := s'.items[s'.images[m].item].lineage; HasAttempt(s'.items, l.req, l.slot, l.attempt + 1)
  {
    var l := s.items[s.images[m].item].lineage;
    if s.images[m].status == QcFailed {
      var i: nat :| IsAttempt(s.items, i, l.req, l.slot, l.attempt + 1);
      assert IsAttempt(s'.items, i, l.req, l.slot, l.attempt + 1);
    }
  }

  lemma KeepsFailedImagesRetried(s: Gen, step: Step)
    requires Ladder(s)
    ensures FailedImagesRetried(Next(s, step))
  {
    ItemsGrow(s, step);
    forall m | m in Next(s, step).images && Next(s, step).images[m].status == QcFailed
      ensures FailedImageEvolves(s, Next(s, step), m)
    {
      FailedImageEvolution(s, step, m);
    }
    AllStillRetried(s, Next(s, step));
  }

  lemma AllStillRetried(s: Gen, s': Gen)
    requires ItemsEvolve(s, s') && FailedImagesRetried(s) && ImagesBelong(s)
    requires forall m | m in s'.images && s'.images[m].status == QcFailed :: FailedImageEvolves(s, s', m)
    ensures FailedImagesRetried(s')
  {
    forall m | m in s'.images && s'.images[m].status == QcFailed && s'.images[m].item < |s'.items|
      ensures var l := s'.items[s'.images[m].item].lineage; HasAttempt(s'.items, l.req, l.slot, l.attempt + 1)
    {
      StillRetried(s, s', m);
    }
  }

  lemma NewlyFailedWasRetried(s: Gen, step: Step, m: Id)
    requires Ladder(s) && m in s.images && s.images[m].status != QcFailed
    requires m in Next(s, step).images && Next(s, step).images[m].status == QcFailed
    ensures RetriedBy(s, Next(s, step), m)
  {
    NewlyFailed(s, step, m);
    RetryGrewFromOwn(s, step);
    var l := s.items[s.images[m].item].lineage;
    assert IsAttempt(Next(s, step).items, |s.items|, l.req, l.slot, l.attempt + 1);
  }

  lemma NewlyFailed(s: Gen, step: Step, m: Id)
    requires m in s.images && s.images[m].status != QcFailed && m in Next(s, step).images && Next(s, step).images[m].status == QcFailed
    ensures Enabled(s, step) && step.RecordQc? && !step.verdict.passed && step.image == m && RungAfter(s, m, step.templates).Some?
    ensures Next(s, step).items == s.items + [Retry(s.items[s.images[m].item].lineage, RungAfter(s, m, step.templates).value, step.recomposed)]
  {}

  lemma ReplaceIsSupersede(images: map<Id, Image>, live: Option<Id>, m: Id, image: Image)
    requires live.Some? ==> live.value in images
    requires image.supersededBy == None && m !in images
    ensures Links(ReplaceImage(images, live, m, image)) == Supersede(Links(images), live, m, image.owner)
  {}

  lemma KeepsChains(s: Gen, step: Step)
    requires WellFormed(Links(s.images))
    ensures WellFormed(Links(Next(s, step).images))
  {
    if step.SucceedRender? && Enabled(s, step) {
      var owner := ImageOwner(s.reqs[s.items[step.item].lineage.req].variant, s.items[step.item].lineage.slot);
      var live := LiveOf(Links(s.images), owner);
      LiveOfIsLive(Links(s.images), owner);
      ReplaceIsSupersede(s.images, live, step.image, NewImage(owner, step.item, step.asset));
      UpdateThenAdd(Links(s.images), live, step.image, owner);
    } else {
      OtherStepsKeepLinks(s, step);
    }
  }

  lemma OtherStepsKeepLinks(s: Gen, step: Step)
    requires !(step.SucceedRender? && Enabled(s, step))
    ensures Links(Next(s, step).images) == Links(s.images)
  {
    OtherStepsKeepOwners(s, step);
  }

  lemma OtherStepsKeepOwners(s: Gen, step: Step)
    requires !(step.SucceedRender? && Enabled(s, step))
    ensures Next(s, step).images.Keys == s.images.Keys
    ensures forall m | m in s.images ::
      Next(s, step).images[m].owner == s.images[m].owner && Next(s, step).images[m].supersededBy == s.images[m].supersededBy
  {}

  lemma KeepsLadder(s: Gen, step: Step)
    requires Ladder(s)
    ensures Ladder(Next(s, step))
  {
    KeepsItemsBelong(s, step);
    KeepsAttemptsUnique(s, step);
    KeepsEverySlotStarted(s, step);
    KeepsRetriesGrew(s, step);
    KeepsImagesBelong(s, step);
    KeepsOneImagePerItem(s, step);
    KeepsFailedImagesRetried(s, step);
  }
}
