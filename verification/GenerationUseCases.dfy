/** The generation use cases over the tables they update in place. Each method is one transaction and is proved
    to take exactly one step of the pipeline; a method that raises leaves every table as it found it. */
module GenerationUseCases {
  import opened Base
  import opened Listing
  import opened SupersedeChain
  import opened GenerationRows
  import opened RollupAndLadder
  import opened GenerationPipeline
  import Guarantees = GenerationGuarantees

  predicate IsReady(s: Gen, r: nat) {
    r < |s.reqs| && s.reqs[r].status == InProgress && RollupNow(s, r).status.Some?
  }

  function ReadyCount(s: Gen, running: seq<nat>): nat {
    if running == [] then 0
    else ReadyCount(s, running[..|running| - 1]) + (if IsReady(s, running[|running| - 1]) then 1 else 0)
  }

  /** The places of the list whose request is ready. */
  function ReadyPlaces(s: Gen, running: seq<nat>): (places: set<nat>)
    ensures forall i: nat :: i in places <==> i < |running| && IsReady(s, running[i])
  {
    if running == [] then {}
    else
      var n := |running| - 1;
      ReadyPlaces(s, running[..n]) + (if IsReady(s, running[n]) then {n} else {})
  }

  lemma {:induction false} ReadyCountIsNumber(s: Gen, running: seq<nat>)
    ensures ReadyCount(s, running) == |ReadyPlaces(s, running)|
  {
    if running != [] { ReadyCountIsNumber(s, running[..|running| - 1]); }
  }

  /** A ready request is settled as its rollup says; any other is as it was. */
  predicate SettledIfReady(s: Gen, reqs': seq<Request>, r: nat, now: Time)
    requires r < |s.reqs| == |reqs'|
  {
    reqs'[r] == if IsReady(s, r) then s.reqs[r].(status := RollupNow(s, r).status.value, completedAt := Some(now)) else s.reqs[r]
  }

  function ReconcileSteps(running: seq<nat>, now: Time): seq<Step> {
    seq(|running|, k requires 0 <= k < |running| => Reconcile(running[k], now))
  }

  /** The running requests that no other transaction holds locked, and when they were created: the table is a log,
      so a row's position tells. */
  function RunningColumn(reqs: seq<Request>, locked: set<nat>): map<nat, int> {
    map r: nat | r < |reqs| && reqs[r].status == InProgress && r !in locked :: r
  }

  lemma ExecPrefix(s: Gen, steps: seq<Step>, k: nat)
    requires k < |steps|
    ensures Exec(s, steps[..k + 1]) == Next(Exec(s, steps[..k]), steps[k])
  {
    assert steps[..k + 1][..k] == steps[..k];
  }

  lemma ChargedThroughout(s: Gen, steps: seq<Step>)
    requires Guarantees.ChargedToTheirRow(s)
    ensures Guarantees.ChargedToTheirRow(Exec(s, steps))
  {
    if steps != [] {
      ChargedThroughout(s, steps[..|steps| - 1]);
      Guarantees.KeepsChargedToTheirRow(Exec(s, steps[..|steps| - 1]), steps[|steps| - 1]);
    }
  }

  lemma MismatchMeansUncharged(s: Gen, steps: seq<Step>, r: nat)
    requires r < |Exec(s, steps).reqs| && !QuotaMatches(Exec(s, steps), r)
    ensures !Guarantees.ChargedToTheirRow(s)
  {
    if Guarantees.ChargedToTheirRow(s) { ChargedThroughout(s, steps); }
  }

  lemma SameReady(s: Gen, s': Gen, r: nat)
    requires s.items == s'.items && r < |s.reqs| && r < |s'.reqs| && s.reqs[r] == s'.reqs[r]
    ensures IsReady(s, r) == IsReady(s', r) && RollupNow(s, r) == RollupNow(s', r)
  {}

  /** The first i requests of the list are dealt with, and the others are as they were. */
  ghost predicate SettledUpTo(s: Gen, reqs': seq<Request>, rows: seq<nat>, i: nat, now: Time)
    requires i <= |rows| && forall k | 0 <= k < |rows| :: rows[k] < |s.reqs|
  {
    && |reqs'| == |s.reqs|
    && (forall k | 0 <= k < i :: SettledIfReady(s, reqs', rows[k], now))
    && (forall k | i <= k < |rows| :: reqs'[rows[k]] == s.reqs[rows[k]])
    && (forall r: nat | r < |reqs'| && r !in rows :: reqs'[r] == s.reqs[r])
  }

  lemma SettleOneMore(s: Gen, reqs': seq<Request>, reqs'': seq<Request>, rows: seq<nat>, i: nat, now: Time)
    requires i < |rows| && Distinct(rows) && (forall k | 0 <= k < |rows| :: rows[k] < |s.reqs|) && SettledUpTo(s, reqs', rows, i, now)
    requires |reqs''| == |reqs'| && (forall k: nat | k < |reqs'| && k != rows[i] :: reqs''[k] == reqs'[k])
    requires SettledIfReady(s, reqs'', rows[i], now)
    ensures SettledUpTo(s, reqs'', rows, i + 1, now)
  {
    forall k | 0 <= k < |rows| && k != i ensures rows[k] != rows[i] {
      if k < i { assert rows[k] != rows[i]; } else { assert rows[i] != rows[k]; }
    }
    assert rows[i] in rows;
  }

  lemma AllSettled(s: Gen, reqs': seq<Request>, rows: seq<nat>, now: Time)
    requires (forall k | 0 <= k < |rows| :: rows[k] < |s.reqs|) && SettledUpTo(s, reqs', rows, |rows|, now)
    ensures |reqs'| == |s.reqs| && forall r | r in rows :: r < |reqs'| && SettledIfReady(s, reqs', r, now)
  {
    forall r | r in rows ensures r < |reqs'| && SettledIfReady(s, reqs', r, now) {
      var k :| 0 <= k < |rows| && rows[k] == r;
      assert SettledIfReady(s, reqs', rows[k], now);
    }
  }

  lemma ReadyCountSnoc(s: Gen, running: seq<nat>, i: nat)
    requires i < |running|
    ensures ReadyCount(s, running[..i + 1]) == ReadyCount(s, running[..i]) + (if IsReady(s, running[i]) then 1 else 0)
  {
    assert running[..i + 1][..i] == running[..i];
  }

  /** Superseding trips the unique index neither between its two statements nor after them. */
  lemma IndexHoldsThroughout(images: map<Id, Image>, m: Id, row: Image)
    requires OneLiveRow(Links(images)) && m !in images && row.supersededBy == None
    ensures var live := LiveOf(Links(images), row.owner);
            && (live.Some? ==> OneLiveRow(Links(images[live.value := images[live.value].(supersededBy := Some(m))])))
            && OneLiveRow(Links(ReplaceImage(images, live, m, row)))
  {
    var live := LiveOf(Links(images), row.owner);
    LiveOfIsLive(Links(images), row.owner);
    StaysUnique(Links(images), live, m, row.owner);
    ReplaceIsSupersede(images, live, m, row);
    if live.Some? {
      assert Links(images[live.value := images[live.value].(supersededBy := Some(m))]) == Retire(Links(images), live.value, m);
    }
  }

  /** The new image waits for QC; the owner's live one, if any, now points at it; every other image is as it was. */
  ghost predicate ReplacesLive(images: map<Id, Image>, images': map<Id, Image>, owner: ImageOwner, item: nat, asset: Id, m: Id) {
    && m !in images && images'.Keys == images.Keys + {m}
    && images'[m] == Image(owner, item, asset, PendingQc, None, None, None, None, None)
    && forall n | n in images ::
         images'[n] == if images[n].owner == owner && images[n].supersededBy == None then images[n].(supersededBy := Some(m)) else images[n]
  }

  lemma ReplacementReplacesLive(images: map<Id, Image>, owner: ImageOwner, item: nat, asset: Id, m: Id)
    requires OneLiveRow(Links(images)) && m !in images
    ensures ReplacesLive(images, ReplaceImage(images, LiveOf(Links(images), owner), m, NewImage(owner, item, asset)), owner, item, asset, m)
  {
    var live := LiveOf(Links(images), owner);
    LiveOfIsLive(Links(images), owner);
    forall n | n in images && images[n].owner == owner && images[n].supersededBy == None ensures live == Some(n) {
      assert IsLive(Links(images), n);
    }
  }

  predicate IsFirstAttempt(item: Item, r: nat, slot: Slot) {
    item.lineage.req == r && item.lineage.slot == slot && item.lineage.attempt == 1
  }

  predicate Repeats(required: seq<Slot>, k: nat)
    requires k < |required|
  {
    exists p :: 0 <= p < k && required[p] == required[k]
  }

  /** The unique constraint refuses slot k exactly when an earlier slot of the list is the same. */
  lemma TakenIffRepeats(before: seq<Item>, added: seq<Item>, r: nat, required: seq<Slot>, k: nat)
    requires k < |required| && |added| == k
    requires forall i | 0 <= i < |before| :: before[i].lineage.req != r
    requires forall p | 0 <= p < k :: IsFirstAttempt(added[p], r, required[p])
    ensures (exists x :: x in before + added && IsFirstAttempt(x, r, required[k])) <==> Repeats(required, k)
  {
    if x :| x in before + added && IsFirstAttempt(x, r, required[k]) {
      assert x in added;
      var p :| 0 <= p < k && added[p] == x;
      assert required[p] == required[k];
    }
    if Repeats(required, k) {
      var p :| 0 <= p < k && required[p] == required[k];
      assert added[p] in before + added;
    }
  }

  class Tables {
    var quotas: map<Period, Quota>
    var reqs: seq<Request>
    var items: seq<Item>
    var images: map<Id, Image>

    function State(): Gen
      reads this
    {
      Gen(quotas, reqs, items, images)
    }

    constructor ()
      ensures State() == INIT
    {
      quotas, reqs, items, images := map[], [], [], map[];
    }

    // -------------------------------------------------------------- the quota row

    method EnsurePeriod(period: Period, id: Id, limit: nat)
      modifies this
      ensures State() == Next(old(State()), Step.EnsurePeriod(period, id, limit))
      ensures quotas == if period in old(quotas) then old(quotas) else old(quotas)[period := Quota(id, limit, 0, 0)]
    {
      if period !in quotas { quotas := quotas[period := Quota(id, limit, 0, 0)]; }
    }

    /** One conditional update: no row and no room are the same refusal. */
    method Reserve(period: Period, quantity: nat) returns (reserved: bool)
      modifies this`quotas
      ensures reserved == (period in old(quotas) && old(quotas)[period].limit - old(quotas)[period].reserved >= quantity)
      ensures quotas == if reserved then old(quotas)[period := old(quotas)[period].(reserved := old(quotas)[period].reserved + quantity)]
                        else old(quotas)
    {
      if period !in quotas { return false; }
      var q := quotas[period];
      if q.limit - q.reserved < quantity { return false; }
      quotas := quotas[period := q.(reserved := q.reserved + quantity)];
      return true;
    }

    method CreateGenerationRequest(variant: Id, period: Period, required: seq<Slot>) returns (r: Outcome<nat>)
      modifies this
      ensures State() == Next(old(State()), CreateRequest(variant, period, required))
      ensures r == if required == [] then Err(NotFound)
                   else if period !in old(quotas) || old(quotas)[period].limit - old(quotas)[period].reserved < |required|
                   then Err(QuotaExceeded) else Ok(|old(reqs)|)
      ensures r.Ok? ==> var q := old(quotas)[period];
                        && quotas == old(quotas)[period := q.(reserved := q.reserved + |required|)]
                        && reqs == old(reqs) + [Request(variant, period, required, Some(q.id), Queued, None)]
      ensures r.Err? ==> State() == old(State())
    {
      if |required| == 0 { return Err(NotFound); }
      var reserved := Reserve(period, |required|);
      if !reserved { return Err(QuotaExceeded); }
      reqs := reqs + [Request(variant, period, required, Some(quotas[period].id), Queued, None)];
      return Ok(|reqs| - 1);
    }

    // -------------------------------------------------------------- fan-out and render

    /** One attempt-1 item per slot, or nothing at all: the first slot that cannot be planned, or that the unique
        constraint on (request, slot, attempt) refuses, rolls the transaction back. */
    method AddFirstAttempts(r: nat, required: seq<Slot>, plans: seq<Plan>, provider: string, model: string) returns (out: Outcome<nat>)
      requires |plans| == |required| && forall i | 0 <= i < |items| :: items[i].lineage.req != r
      modifies this`items
      ensures out.Ok? <==> (forall k | 0 <= k < |plans| :: plans[k].Ready?) && Distinct(required)
      ensures items == if out.Ok? then old(items) + FirstAttempts(r, required, plans, provider, model) else old(items)
      ensures out.Ok? ==> out.result == |required| && |items| == |old(items)| + |required|
                          && forall p | 0 <= p < |required| ::
                               items[|old(items)| + p] == Item(Lineage(r, required[p], plans[p].template, 1, provider, model, plans[p].prompt,
                                                                       plans[p].inputs), Pending, None, None)
    {
      var before := items;
      ghost var added: seq<Item> := [];
      for k := 0 to |required|
        invariant before == old(items) && items == before + added && |added| == k
        invariant forall p | 0 <= p < k :: plans[p].Ready? && !Repeats(required, p)
        invariant forall p | 0 <= p < k ::
                    added[p] == Item(Lineage(r, required[p], plans[p].template, 1, provider, model, plans[p].prompt, plans[p].inputs), Pending, None, None)
      {
        if plans[k].Blocked? { items := before; return Err(Validation); }
        var lineage := Lineage(r, required[k], plans[k].template, 1, provider, model, plans[k].prompt, plans[k].inputs);
        TakenIffRepeats(before, added, r, required, k);
        if exists x :: x in items && IsFirstAttempt(x, r, required[k]) {
          items := before;
          return Err(Integrity);
        }
        var item := new GenerationItem.Create(lineage);
        added := added + [item.AsRow()];
        items := items + [item.AsRow()];
      }
      forall p, q | 0 <= p < q < |required| ensures required[p] != required[q] { assert !Repeats(required, q); }
      assert added == FirstAttempts(r, required, plans, provider, model);
      return Ok(|required|);
    }

    method FanOutGenerationItems(r: nat, plans: seq<Plan>, provider: string, model: string) returns (out: Outcome<nat>)
      requires r < |reqs| ==> |plans| == |reqs[r].required|
      requires r < |reqs| && reqs[r].status == Queued ==> forall i | 0 <= i < |items| :: items[i].lineage.req != r
      modifies this
      ensures State() == Next(old(State()), FanOut(r, plans, provider, model))
      ensures out.Ok? <==> Enabled(old(State()), FanOut(r, plans, provider, model))
      ensures out.Ok? <==> && r < |old(reqs)| && old(reqs)[r].status == Queued && (forall p | p in plans :: p.Ready?)
                           && Distinct(old(reqs)[r].required)
      ensures out.Ok? ==> var slots, n := old(reqs)[r].required, |old(items)|;
                          && out.result == |slots| && reqs == old(reqs)[r := old(reqs)[r].(status := InProgress)]
                          && |items| == n + |slots| && items[..n] == old(items)
                          && forall k | 0 <= k < |slots| ::
                               items[n + k] == Item(Lineage(r, slots[k], plans[k].template, 1, provider, model, plans[k].prompt, plans[k].inputs),
                                                    Pending, None, None)
      ensures out.Err? ==> State() == old(State())
    {
      if r >= |reqs| { return Err(NotFound); }
      var request := new GenerationRequest.Load(reqs[r]);
      if request.status != Queued { return Err(Validation); }
      out := AddFirstAttempts(r, request.required, plans, provider, model);
      if out.Err? { return; }
      var running := request.MarkRunning();
      reqs := reqs[r := request.AsRow()];
    }

    /** What the worker does once its job has named the item: every reference image must be there. */
    method StartGenerationItemRender(i: nat, assets: set<Id>) returns (out: Outcome<nat>)
      modifies this
      ensures State() == if out.Ok? then Next(old(State()), StartRender(i)) else old(State())
      ensures out.Ok? <==> Enabled(old(State()), StartRender(i)) && forall a | a in old(items)[i].lineage.inputs :: a in assets
      ensures out.Ok? ==> old(items)[i].status in {Pending, Failed} && items == old(items)[i := old(items)[i].(status := Running)]
      ensures out == Err(NotFound) <==> i >= |old(items)| || exists a :: a in old(items)[i].lineage.inputs && a !in assets
    {
      if i >= |items| { return Err(NotFound); }
      var item := new GenerationItem.Load(items[i]);
      for k := 0 to |item.lineage.inputs|
        invariant item.AsRow() == items[i] && State() == old(State()) && forall j | 0 <= j < k :: item.lineage.inputs[j] in assets
      {
        if item.lineage.inputs[k] !in assets { return Err(NotFound); }
      }
      var ok := item.MarkRunning();
      if !ok { return Err(Validation); }
      items := items[i := item.AsRow()];
      return Ok(i);
    }

    /** The item follows its job into dead. */
    method FailGenerationItemRender(i: nat, error: Failure, jobDead: bool) returns (out: Outcome<nat>)
      modifies this
      ensures State() == Next(old(State()), FailRender(i, error, jobDead))
      ensures out.Ok? <==> i < |old(items)| && old(items)[i].status == Running
      ensures items == if out.Err? then old(items)
                       else old(items)[i := old(items)[i].(status := if jobDead then Dead else Failed, failure := Some(error))]
    {
      if i >= |items| { return Err(NotFound); }
      var item := new GenerationItem.Load(items[i]);
      var ok := item.MarkFailed(error);
      if !ok { return Err(Validation); }
      if jobDead { ok := item.MarkDead(); }
      items := items[i := item.AsRow()];
      return Ok(i);
    }

    /** The statements on catalog_images, with the unique index as their precondition. */
    method UpdateImage(m: Id, row: Image)
      requires m in images && OneLiveRow(Links(images[m := row]))
      modifies this`images
      ensures images == old(images)[m := row]
    {
      images := images[m := row];
    }

    method AddImage(m: Id, row: Image)
      requires m !in images && OneLiveRow(Links(images[m := row]))
      modifies this`images
      ensures images == old(images)[m := row]
    {
      images := images[m := row];
    }

    method GetLive(owner: ImageOwner) returns (live: Option<Id>)
      requires OneLiveRow(Links(images))
      ensures live == LiveOf(Links(images), owner)
      ensures live.Some? ==> live.value in images && images[live.value].owner == owner
    {
      LiveOfIsLive(Links(images), owner);
      if exists a :: a in images.Keys && images[a].supersededBy == None && images[a].owner == owner {
        var a :| a in images.Keys && images[a].supersededBy == None && images[a].owner == owner;
        assert IsLive(Links(images), a) && Links(images)[a].owner == owner;
        live := Some(a);
      } else {
        live := None;
      }
    }

    /** Retire the slot's live image, if there is one, then add the new one. */
    method SupersedeThenCreate(owner: ImageOwner, item: nat, asset: Id, m: Id)
      requires OneLiveRow(Links(images)) && m !in images
      modifies this`images
      ensures images == ReplaceImage(old(images), LiveOf(Links(old(images)), owner), m, NewImage(owner, item, asset))
      ensures ReplacesLive(old(images), images, owner, item, asset, m)
    {
      ReplacementReplacesLive(images, owner, item, asset, m);
      var live := GetLive(owner);
      var newImage := new CatalogImage.Create(owner, item, asset);
      IndexHoldsThroughout(images, m, newImage.AsRow());
      if live.Some? {
        var retired := new CatalogImage.Load(images[live.value]);
        var ok := retired.MarkSuperseded(m);
        UpdateImage(live.value, retired.AsRow());
      }
      AddImage(m, newImage.AsRow());
    }

    method CompleteGenerationItemRender(i: nat, asset: Id, m: Id) returns (out: Outcome<nat>)
      requires OneLiveRow(Links(images))
      modifies this
      ensures State() == Next(old(State()), SucceedRender(i, asset, m))
      ensures out.Ok? <==> i < |old(items)| && old(items)[i].status == Running && old(items)[i].lineage.req < |old(reqs)| && m !in old(images)
      ensures out.Ok? ==> && items == old(items)[i := old(items)[i].(status := Succeeded, output := Some(asset))]
                          && var l := old(items)[i].lineage;
                             ReplacesLive(old(images), images, ImageOwner(old(reqs)[l.req].variant, l.slot), i, asset, m)
      ensures out.Err? ==> State() == old(State())
    {
      if i >= |items| || items[i].lineage.req >= |reqs| { return Err(NotFound); }
      var request := reqs[items[i].lineage.req];
      var item := new GenerationItem.Load(items[i]);
      var ok := item.MarkSucceeded(asset);
      if !ok { return Err(Validation); }
      if m in images { return Err(Integrity); }
      SupersedeThenCreate(ImageOwner(request.variant, item.lineage.slot), i, asset, m);
      items := items[i := item.AsRow()];
      return Ok(i);
    }

    // -------------------------------------------------------------- quality control

    method ListForRequest(r: nat) returns (rows: seq<Item>)
      ensures rows == RowsOf(items, r)
    {
      rows := [];
      for k := 0 to |items|
        invariant rows == RowsOf(items[..k], r)
      {
        assert items[..k + 1][..k] == items[..k];
        if items[k].lineage.req == r { rows := rows + [items[k]]; }
      }
      assert items[..|items|] == items;
    }

    method FilterSlot(rows: seq<Item>, slot: Slot) returns (attempts: seq<Item>)
      ensures attempts == SlotItems(rows, slot)
    {
      attempts := [];
      for k := 0 to |rows|
        invariant attempts == SlotItems(rows[..k], slot)
      {
        assert rows[..k + 1][..k] == rows[..k];
        if rows[k].lineage.slot == slot { attempts := attempts + [rows[k]]; }
      }
      assert rows[..|rows|] == rows;
    }

    /** `_retry`: the failed attempt's lineage again, with the rung's template and the old or the recomposed prompt. */
    method QueueRetry(own: Lineage, rung: Rung, recomposed: Option<string>) returns (queued: bool)
      modifies this`items
      ensures queued <==> rung.reusePrompt || recomposed.Some?
      ensures items == if queued then old(items) + [Retry(own, rung, recomposed)] else old(items)
    {
      var prompt := own.prompt;
      if !rung.reusePrompt {
        if recomposed.None? { return false; }
        prompt := recomposed.value;
      }
      var retry := new GenerationItem.Create(
        Lineage(own.req, own.slot, rung.template, rung.attempt, own.provider, own.model, prompt, own.inputs));
      items := items + [retry.AsRow()];
      return true;
    }

    /** A passing verdict always lands on pending approval first; a failing one climbs the ladder or asks a person. */
    method CompleteCatalogImageQc(m: Id, verdict: QcVerdict, autoApprove: bool, templates: seq<Template>,
                                  recomposed: Option<string>, now: Time)
      returns (out: Outcome<Id>)
      modifies this
      ensures State() == Next(old(State()), RecordQc(m, verdict, autoApprove, templates, recomposed, now))
      ensures out.Ok? <==> Enabled(old(State()), RecordQc(m, verdict, autoApprove, templates, recomposed, now))
      ensures out.Ok? && verdict.passed ==> && items == old(items) && var image := old(images)[m];
                images == old(images)[m := if autoApprove then image.(status := Approved, qcResult := Some(verdict.checks), approvedBy := None,
                                                                      approvedAt := Some(now))
                                           else image.(status := PendingApproval, qcResult := Some(verdict.checks))]
      ensures out.Err? ==> State() == old(State())
    {
      if m !in images || images[m].item >= |items| { return Err(NotFound); }
      var image := new CatalogImage.Load(images[m]);
      var ok := image.MarkQc(verdict);
      if !ok { return Err(Validation); }
      if verdict.passed {
        if autoApprove { ok := image.Approve(None, now); }
        images := images[m := image.AsRow()];
        return Ok(m);
      }
      var own := items[image.item].lineage;
      var all := ListForRequest(own.req);
      var attempts := FilterSlot(all, own.slot);
      var rung := if attempts == [] then None else NextRung(attempts, templates);
      if rung.None? {
        ok := image.MarkHumanReview(verdict.EscalationReason());
        images := images[m := image.AsRow()];
        return Ok(m);
      }
      var queued := QueueRetry(own, rung.value, recomposed);
      if !queued { return Err(Validation); }
      images := images[m := image.AsRow()];
      return Ok(m);
    }

    method ApproveCatalogImage(m: Id, approver: Id, now: Time) returns (out: Outcome<Id>)
      requires m in images ==> images[m].item < |items|
      modifies this
      ensures State() == Next(old(State()), ApproveImage(m, approver, now))
      ensures out == if m !in old(images) then Err(NotFound) else if old(images)[m].status != PendingApproval then Err(Validation) else Ok(m)
      ensures images == if out.Err? then old(images)
                        else old(images)[m := old(images)[m].(status := Approved, approvedBy := Some(approver), approvedAt := Some(now))]
    {
      if m !in images { return Err(NotFound); }
      var image := new CatalogImage.Load(images[m]);
      var ok := image.Approve(Some(approver), now);
      if !ok { return Err(Validation); }
      images := images[m := image.AsRow()];
      return Ok(m);
    }

    method RejectCatalogImage(m: Id, reason: string) returns (out: Outcome<Id>)
      requires m in images ==> images[m].item < |items|
      modifies this
      ensures State() == Next(old(State()), RejectImage(m, reason))
      ensures out == if m !in old(images) then Err(NotFound) else if old(images)[m].status != PendingApproval then Err(Validation) else Ok(m)
      ensures images == if out.Err? then old(images) else old(images)[m := old(images)[m].(status := Rejected, reason := Some(reason))]
    {
      if m !in images { return Err(NotFound); }
      var image := new CatalogImage.Load(images[m]);
      var ok := image.Reject(reason);
      if !ok { return Err(Validation); }
      images := images[m := image.AsRow()];
      return Ok(m);
    }

    // -------------------------------------------------------------- the reconciler

    /** `commit` and `release`, each one only when there is something to move. */
    method SplitReservation(period: Period, succeeded: nat, failed: nat)
      requires period in quotas
      modifies this`quotas
      ensures var q := old(quotas)[period];
              quotas == old(quotas)[period := q.(committed := q.committed + succeeded, reserved := q.reserved - failed)]
    {
      if succeeded > 0 { quotas := quotas[period := quotas[period].(committed := quotas[period].committed + succeeded)]; }
      if failed > 0 { quotas := quotas[period := quotas[period].(reserved := quotas[period].reserved - failed)]; }
    }

    /** One request of the sweep: settle it, then split its reservation between committed and released. */
    method SettleOne(r: nat, now: Time) returns (out: Outcome<bool>)
      requires r < |reqs| && reqs[r].status == InProgress
      modifies this
      ensures out.Err? ==> State() == old(State()) && out.error == NotFound && !QuotaMatches(old(State()), r)
      ensures out.Err? <==> var q := old(reqs)[r];
                RollupNow(old(State()), r).status.Some? && q.reservation.Some?
                && (q.period !in old(quotas) || old(quotas)[q.period].id != q.reservation.value)
      ensures out.Ok? ==> State() == Next(old(State()), Reconcile(r, now)) && out.result == IsReady(old(State()), r)
      ensures out.Ok? && !out.result ==> State() == old(State())
      ensures out.Ok? && out.result ==>
                var rollup, q := RollupNow(old(State()), r), old(reqs)[r];
                && rollup.status.Some? && reqs == old(reqs)[r := q.(status := rollup.status.value, completedAt := Some(now))]
                && quotas == if q.reservation.None? then old(quotas) else old(quotas)[q.period := old(quotas)[q.period].(
                     committed := old(quotas)[q.period].committed + rollup.succeeded, reserved := old(quotas)[q.period].reserved - rollup.failed)]
      ensures items == old(items) && images == old(images) && |reqs| == |old(reqs)|
      ensures forall k | 0 <= k < |reqs| && k != r :: reqs[k] == old(reqs)[k]
    {
      var rows := ListForRequest(r);
      var rollup := ComputeRollup(reqs[r].required, rows);
      if rollup.status.None? { return Ok(false); }
      var request := new GenerationRequest.Load(reqs[r]);
      var ok := request.MarkTerminal(rollup.status.value, now);
      if request.reservation.Some? {
        var period := request.period;
        if period !in quotas || quotas[period].id != request.reservation.value { return Err(NotFound); }
        SplitReservation(period, rollup.succeeded, rollup.failed);
      }
      reqs := reqs[r := request.AsRow()];
      return Ok(true);
    }

    /** Request by request; the first reservation that does not match stops the sweep. */
    method SettleEach(rows: seq<nat>, now: Time) returns (out: Outcome<nat>)
      requires Distinct(rows) && forall i | 0 <= i < |rows| :: rows[i] < |reqs| && reqs[rows[i]].status == InProgress
      modifies this
      ensures items == old(items) && images == old(images)
      ensures out.Err? ==> !Guarantees.ChargedToTheirRow(old(State()))
      ensures out.Ok? ==> State() == Exec(old(State()), ReconcileSteps(rows, now)) && out.result == ReadyCount(old(State()), rows)
      ensures out.Ok? ==> SettledUpTo(old(State()), reqs, rows, |rows|, now)
    {
      ghost var steps := ReconcileSteps(rows, now);
      var settled := 0;
      for i := 0 to |rows|
        invariant items == old(items) && images == old(images)
        invariant SettledUpTo(old(State()), reqs, rows, i, now)
        invariant State() == Exec(old(State()), steps[..i])
        invariant settled == ReadyCount(old(State()), rows[..i])
      {
        ExecPrefix(old(State()), steps, i);
        ReadyCountSnoc(old(State()), rows, i);
        SameReady(old(State()), State(), rows[i]);
        ghost var before := reqs;
        var one := SettleOne(rows[i], now);
        if one.Err? {
          MismatchMeansUncharged(old(State()), steps[..i], rows[i]);
          return Err(one.error);
        }
        SettleOneMore(old(State()), before, reqs, rows, i, now);
        if one.result { settled := settled + 1; }
      }
      assert steps[..|rows|] == steps && rows[..|rows|] == rows;
      return Ok(settled);
    }

    /** The oldest running requests that no other transaction holds locked, up to the limit. */
    method ListRunningForUpdate(limit: nat, locked: set<nat>) returns (running: seq<nat>)
      ensures Distinct(running) && |running| <= limit
      ensures forall r | r in running :: r < |reqs| && reqs[r].status == InProgress && r !in locked
      ensures forall i, j | 0 <= i < j < |running| :: running[i] <= running[j]
      ensures forall r: nat | r < |reqs| && reqs[r].status == InProgress && r !in locked && r !in running ::
                |running| == limit && forall q | q in running :: q <= r
    {
      var column := RunningColumn(reqs, locked);
      running := ListOldest(column, limit);
      forall i, j | 0 <= i < j < |running| ensures running[i] <= running[j] { assert running[i] in running && running[j] in running; }
      forall r: nat | r < |reqs| && reqs[r].status == InProgress && r !in locked && r !in running
        ensures |running| == limit && forall q | q in running :: q <= r
      {
        assert r in column;
      }
    }

    /** The sweep is one transaction: a reservation that does not match undoes all of it. */
    method ReconcileGenerationRequests(now: Time, limit: nat, locked: set<nat>) returns (out: Outcome<nat>, ghost running: seq<nat>)
      modifies this
      ensures Distinct(running) && |running| <= limit
      ensures forall r | r in running :: r < |old(reqs)| && old(reqs)[r].status == InProgress && r !in locked
      ensures forall r: nat | r < |old(reqs)| && old(reqs)[r].status == InProgress && r !in locked && r !in running ::
                |running| == limit && forall q | q in running :: q <= r
      ensures out.Err? ==> State() == old(State()) && !Guarantees.ChargedToTheirRow(old(State()))
      ensures out.Ok? ==> State() == Exec(old(State()), ReconcileSteps(running, now)) && out.result == |ReadyPlaces(old(State()), running)|
      ensures out.Ok? ==> |reqs| == |old(reqs)| && (forall r: nat | r < |reqs| && r !in running :: reqs[r] == old(reqs)[r])
                          && forall r | r in running :: SettledIfReady(old(State()), reqs, r, now)
    {
      var rows := ListRunningForUpdate(limit, locked);
      forall k | 0 <= k < |rows| ensures rows[k] < |reqs| && reqs[rows[k]].status == InProgress { assert rows[k] in rows; }
      ReadyCountIsNumber(State(), rows);
      var savedQuotas, savedReqs := quotas, reqs;
      out := SettleEach(rows, now);
      if out.Err? { quotas, reqs := savedQuotas, savedReqs; } else { AllSettled(old(State()), reqs, rows, now); }
      return out, rows;
    }
  }
}
