/** Rows of the generation pipeline and the entities that change them in place. */
module GenerationRows {
  import opened Base

  type Slot = string
  type Period = string

  // ---------------------------------------------------------------- generation items

  /** What one attempt is; fixed when the item is created. */
  datatype Lineage = Lineage(
    req: nat, slot: Slot, template: Id, attempt: nat,
    provider: string, model: string, prompt: string, inputs: seq<Id>)

  datatype ItemStatus = Pending | Running | Succeeded | Failed | Dead

  /** What the last failed render reported. */
  datatype Failure = Failure(code: string, detail: string)

  datatype Item = Item(lineage: Lineage, status: ItemStatus, output: Option<Id>, failure: Option<Failure>)

  function NewItem(lineage: Lineage): Item { Item(lineage, Pending, None, None) }

  class GenerationItem {
    const lineage: Lineage
    var status: ItemStatus
    var output: Option<Id>
    var failure: Option<Failure>

    function AsRow(): Item
      reads this
    {
      Item(lineage, status, output, failure)
    }

    constructor Create(lineage: Lineage)
      ensures AsRow() == NewItem(lineage)
    {
      this.lineage, status, output, failure := lineage, Pending, None, None;
    }

    constructor Load(row: Item)
      ensures AsRow() == row
    {
      lineage, status, output, failure := row.lineage, row.status, row.output, row.failure;
    }

    method MarkRunning() returns (ok: bool)
      modifies this
      ensures ok == (old(status) in {Pending, Failed})
      ensures AsRow() == if ok then old(AsRow()).(status := Running) else old(AsRow())
    {
      if status !in {Pending, Failed} { return false; }
      status := Running;
      return true;
    }

    method MarkSucceeded(asset: Id) returns (ok: bool)
      modifies this
      ensures ok == (old(status) == Running)
      ensures AsRow() == if ok then old(AsRow()).(status := Succeeded, output := Some(asset)) else old(AsRow())
    {
      if status != Running { return false; }
      status, output := Succeeded, Some(asset);
      return true;
    }

    method MarkFailed(error: Failure) returns (ok: bool)
      modifies this
      ensures ok == (old(status) == Running)
      ensures AsRow() == if ok then old(AsRow()).(status := Failed, failure := Some(error)) else old(AsRow())
    {
      if status != Running { return false; }
      status, failure := Failed, Some(error);
      return true;
    }

    method MarkDead() returns (ok: bool)
      modifies this
      ensures ok == (old(status) == Failed)
      ensures AsRow() == if ok then old(AsRow()).(status := Dead) else old(AsRow())
    {
      if status != Failed { return false; }
      status := Dead;
      return true;
    }
  }

  // ---------------------------------------------------------------- generation requests

  datatype RequestStatus = Queued | InProgress | AllSucceeded | PartiallyFailed | AllFailed

  /** `required` is the list of required catalog slots of the pinned spec snapshot. */
  datatype Request = Request(
    variant: Id, period: Period, required: seq<Slot>, reservation: Option<Id>, status: RequestStatus, completedAt: Option<Time>)
  {
    predicate Settled() { status in {AllSucceeded, PartiallyFailed, AllFailed} }
  }

  class GenerationRequest {
    const variant: Id
    const period: Period
    const required: seq<Slot>
    const reservation: Option<Id>
    var status: RequestStatus
    var completedAt: Option<Time>

    function AsRow(): Request
      reads this
    {
      Request(variant, period, required, reservation, status, completedAt)
    }

    constructor Load(row: Request)
      ensures AsRow() == row
    {
      variant, period, required := row.variant, row.period, row.required;
      reservation, status, completedAt := row.reservation, row.status, row.completedAt;
    }

    method MarkRunning() returns (ok: bool)
      modifies this
      ensures ok == (old(status) == Queued)
      ensures AsRow() == if ok then old(AsRow()).(status := InProgress) else old(AsRow())
    {
      if status != Queued { return false; }
      status := InProgress;
      return true;
    }

    method MarkTerminal(terminal: RequestStatus, now: Time) returns (ok: bool)
      modifies this
      ensures ok == (old(status) == InProgress)
      ensures AsRow() == if ok then old(AsRow()).(status := terminal, completedAt := Some(now)) else old(AsRow())
    {
      if status != InProgress { return false; }
      status, completedAt := terminal, Some(now);
      return true;
    }
  }

  // ---------------------------------------------------------------- catalog images

  datatype ImageStatus = PendingQc | QcFailed | HumanReview | PendingApproval | Approved | Rejected

  datatype ImageOwner = ImageOwner(variant: Id, slot: Slot)

  type Checks = map<string, string>

  /** What the quality check answers. */
  datatype QcVerdict = QcVerdict(passed: bool, checks: Checks, reason: Option<string>)
  {
    /** Python's `reason or default`: an empty reason counts as none. */
    function EscalationReason(): string {
      if reason.None? || reason.value == "" then "QC retry ladder exhausted." else reason.value
    }
  }

  datatype Image = Image(
    owner: ImageOwner, item: nat, asset: Id, status: ImageStatus, supersededBy: Option<Id>,
    qcResult: Option<Checks>, reason: Option<string>, approvedBy: Option<Id>, approvedAt: Option<Time>)
  {
    function Judged(verdict: QcVerdict): Image {
      this.(status := if verdict.passed then PendingApproval else QcFailed, qcResult := Some(verdict.checks))
    }

    function Escalated(why: string): Image { this.(status := HumanReview, reason := Some(why)) }

    /** Nobody approved it when the approval is automatic. */
    function ApprovedAs(approver: Option<Id>, now: Time): Image {
      this.(status := Approved, approvedBy := approver, approvedAt := Some(now))
    }

    function RejectedFor(why: string): Image { this.(status := Rejected, reason := Some(why)) }
  }

  function NewImage(owner: ImageOwner, item: nat, asset: Id): Image {
    Image(owner, item, asset, PendingQc, None, None, None, None, None)
  }

  class CatalogImage {
    const owner: ImageOwner
    const item: nat
    const asset: Id
    var status: ImageStatus
    var supersededBy: Option<Id>
    var qcResult: Option<Checks>
    var reason: Option<string>
    var approvedBy: Option<Id>
    var approvedAt: Option<Time>

    function AsRow(): Image
      reads this
    {
      Image(owner, item, asset, status, supersededBy, qcResult, reason, approvedBy, approvedAt)
    }

    constructor Create(owner: ImageOwner, item: nat, asset: Id)
      ensures AsRow() == NewImage(owner, item, asset)
    {
      this.owner, this.item, this.asset := owner, item, asset;
      status, supersededBy, qcResult, reason, approvedBy, approvedAt := PendingQc, None, None, None, None, None;
    }

    constructor Load(row: Image)
      ensures AsRow() == row
    {
      owner, item, asset := row.owner, row.item, row.asset;
      status, supersededBy, qcResult, reason := row.status, row.supersededBy, row.qcResult, row.reason;
      approvedBy, approvedAt := row.approvedBy, row.approvedAt;
    }

    method MarkSuperseded(successor: Id) returns (ok: bool)
      modifies this
      ensures ok == (old(supersededBy) == None)
      ensures AsRow() == if ok then old(AsRow()).(supersededBy := Some(successor)) else old(AsRow())
    {
      if supersededBy != None { return false; }
      supersededBy := Some(successor);
      return true;
    }

    method MarkQc(verdict: QcVerdict) returns (ok: bool)
      modifies this
      ensures ok == (old(status) == PendingQc)
      ensures AsRow() == if ok then old(AsRow()).(status := if verdict.passed then PendingApproval else QcFailed,
                                                  qcResult := Some(verdict.checks)) else old(AsRow())
    {
      if status != PendingQc { return false; }
      status, qcResult := if verdict.passed then PendingApproval else QcFailed, Some(verdict.checks);
      return true;
    }

    method MarkHumanReview(why: string) returns (ok: bool)
      modifies this
      ensures ok == (old(status) == QcFailed)
      ensures AsRow() == if ok then old(AsRow()).(status := HumanReview, reason := Some(why)) else old(AsRow())
    {
      if status != QcFailed { return false; }
      status, reason := HumanReview, Some(why);
      return true;
    }

    method Approve(approver: Option<Id>, now: Time) returns (ok: bool)
      modifies this
      ensures ok == (old(status) == PendingApproval)
      ensures AsRow() == if ok then old(AsRow()).(status := Approved, approvedBy := approver, approvedAt := Some(now)) else old(AsRow())
    {
      if status != PendingApproval { return false; }
      status, approvedBy, approvedAt := Approved, approver, Some(now);
      return true;
    }

    method Reject(why: string) returns (ok: bool)
      modifies this
      ensures ok == (old(status) == PendingApproval)
      ensures AsRow() == if ok then old(AsRow()).(status := Rejected, reason := Some(why)) else old(AsRow())
    {
      if status != PendingApproval { return false; }
      status, reason := Rejected, Some(why);
      return true;
    }
  }
}
