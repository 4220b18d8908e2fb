/** Content drafts: generated or edited copy behind an approval gate, kept as supersede chains. */
module ContentDrafts {
  import opened Base
  import opened SupersedeChain

  type UserId = nat

  datatype DraftOwner = DraftOwner(variant: nat, channel: string, locale: string)

  datatype Copy = Copy(title: Option<string>, body: string, hashtags: seq<string>, cta: Option<string>, altText: string)

  datatype DraftStatus = Generated | PendingApproval | Approved | Rejected

  datatype Draft = Draft(
    owner: DraftOwner, copy: Copy, editedBy: Option<UserId>,
    status: DraftStatus, approvedBy: Option<UserId>, approvedAt: Option<Time>,
    rejectionReason: Option<string>, supersededBy: Option<Id>)

  type Drafts = map<Id, Draft>

  function Links(t: Drafts): Table<DraftOwner> {
    map id | id in t :: Link(t[id].owner, t[id].supersededBy)
  }

  /** The entity as the use cases hold it: lineage fixed at creation, state updated in place. */
  class ContentDraft {
    const owner: DraftOwner
    const copy: Copy
    const editedBy: Option<UserId>
    var status: DraftStatus
    var approvedBy: Option<UserId>
    var approvedAt: Option<Time>
    var rejectionReason: Option<string>
    var supersededBy: Option<Id>

    function Row(): Draft
      reads this
    {
      Draft(owner, copy, editedBy, status, approvedBy, approvedAt, rejectionReason, supersededBy)
    }

    constructor Create(owner: DraftOwner, copy: Copy, editedBy: Option<UserId>)
      ensures Row() == Draft(owner, copy, editedBy, Generated, None, None, None, None)
    {
      this.owner, this.copy, this.editedBy := owner, copy, editedBy;
      status, approvedBy, approvedAt, rejectionReason, supersededBy := Generated, None, None, None, None;
    }

    constructor Load(row: Draft)
      ensures Row() == row
    {
      owner, copy, editedBy := row.owner, row.copy, row.editedBy;
      status, approvedBy, approvedAt := row.status, row.approvedBy, row.approvedAt;
      rejectionReason, supersededBy := row.rejectionReason, row.supersededBy;
    }

    method MarkSuperseded(successor: Id) returns (ok: bool)
      modifies this
      ensures ok == (old(supersededBy) == None)
      ensures Row() == if ok then old(Row()).(supersededBy := Some(successor)) else old(Row())
    {
      if supersededBy != None { return false; }
      supersededBy := Some(successor);
      return true;
    }

    method MarkPendingApproval() returns (ok: bool)
      modifies this
      ensures ok == (old(status) == Generated)
      ensures Row() == if ok then old(Row()).(status := PendingApproval) else old(Row())
    {
      if status != Generated { return false; }
      status := PendingApproval;
      return true;
    }

    method Approve(approver: Option<UserId>, now: Time) returns (ok: bool)
      modifies this
      ensures ok == (old(status) == PendingApproval)
      ensures Row() == if ok then old(Row()).(status := Approved, approvedBy := approver, approvedAt := Some(now)) else old(Row())
    {
      if status != PendingApproval { return false; }
      status, approvedBy, approvedAt := Approved, approver, Some(now);
      return true;
    }

    method Reject(reason: string) returns (ok: bool)
      modifies this
      ensures ok == (old(status) == PendingApproval)
      ensures Row() == if ok then old(Row()).(status := Rejected, rejectionReason := Some(reason)) else old(Row())
    {
      if status != PendingApproval { return false; }
      status, rejectionReason := Rejected, Some(reason);
      return true;
    }
  }

  // ---------------------------------------------------------------- one transaction each

  /** `autoApprove` is "approval.required resolved to the literal False"; `clean` is the copy check. */
  datatype Action =
    | CompleteGeneration(owner: DraftOwner, copy: Copy, clean: bool, autoApprove: bool, newId: Id, now: Time)
    | Edit(id: Id, copy: Copy, editor: UserId, clean: bool, autoApprove: bool, newId: Id, now: Time)
    | Approve(id: Id, approver: UserId, now: Time)
    | Reject(id: Id, reason: string)

  function Gate(owner: DraftOwner, copy: Copy, editedBy: Option<UserId>, autoApprove: bool, now: Time): Draft {
    Draft(owner, copy, editedBy, if autoApprove then Approved else PendingApproval,
          None, if autoApprove then Some(now) else None, None, None)
  }

  function Replace(t: Drafts, live: Option<Id>, newId: Id, row: Draft): Drafts
    requires live.Some? ==> live.value in t
  {
    (if live.Some? then t[live.value := t[live.value].(supersededBy := Some(newId))] else t)[newId := row]
  }

  ghost predicate Accepted(t: Drafts, a: Action) {
    match a
    case CompleteGeneration(_, _, clean, _, newId, _) => clean && newId !in t
    case Edit(id, _, _, clean, _, newId, _) => id in t && t[id].supersededBy == None && clean && newId !in t
    case Approve(id, _, _) => id in t && t[id].status == PendingApproval
    case Reject(id, _) => id in t && t[id].status == PendingApproval
  }

  /** The table after a transaction; a refused one is rolled back. */
  ghost function Next(t: Drafts, a: Action): Drafts {
    if !Accepted(t, a) then t else
    match a
    case CompleteGeneration(owner, copy, _, auto, newId, now) =>
      Replace(t, LiveOf(Links(t), owner), newId, Gate(owner, copy, None, auto, now))
    case Edit(id, copy, editor, _, auto, newId, now) =>
      Replace(t, Some(id), newId, Gate(t[id].owner, copy, Some(editor), auto, now))
    case Approve(id, user, now) =>
      t[id := t[id].(status := Approved, approvedBy := Some(user), approvedAt := Some(now))]
    case Reject(id, reason) =>
      t[id := t[id].(status := Rejected, rejectionReason := Some(reason))]
  }

  // ---------------------------------------------------------------- what every transaction keeps

  ghost predicate Inv(t: Drafts) {
    WellFormed(Links(t)) && forall d | d in t :: t[d].status != Generated
  }

  lemma ReplaceIsSupersede(t: Drafts, live: Option<Id>, newId: Id, row: Draft)
    requires live.Some? ==> live.value in t
    requires row.supersededBy == None && newId !in t
    ensures Links(Replace(t, live, newId, row)) == Supersede(Links(t), live, newId, row.owner)
  {}

  lemma NextNeverLeavesGenerated(t: Drafts, a: Action)
    requires forall d | d in t :: t[d].status != Generated
    ensures forall d | d in Next(t, a) :: Next(t, a)[d].status != Generated
  {}

  lemma NextKeepsChains(t: Drafts, a: Action)
    requires WellFormed(Links(t)) && Accepted(t, a)
    ensures WellFormed(Links(Next(t, a)))
  {
    match a
    case CompleteGeneration(owner, copy, _, auto, newId, now) =>
      LiveOfIsLive(Links(t), owner);
      ReplaceIsSupersede(t, LiveOf(Links(t), owner), newId, Gate(owner, copy, None, auto, now));
      UpdateThenAdd(Links(t), LiveOf(Links(t), owner), newId, owner);
    case Edit(id, copy, editor, _, auto, newId, now) =>
      ReplaceIsSupersede(t, Some(id), newId, Gate(t[id].owner, copy, Some(editor), auto, now));
      UpdateThenAdd(Links(t), Some(id), newId, t[id].owner);
    case Approve(id, _, _) => assert Links(Next(t, a)) == Links(t);
    case Reject(id, _) => assert Links(Next(t, a)) == Links(t);
  }

  lemma NextKeepsInv(t: Drafts, a: Action)
    requires Inv(t)
    ensures Inv(Next(t, a))
  {
    NextNeverLeavesGenerated(t, a);
    if Accepted(t, a) { NextKeepsChains(t, a); }
  }

  /** Rows are never removed, copy is never rewritten, and a decided draft stays decided. */
  predicate Grows(t: Drafts, t': Drafts) {
    forall d | d in t ::
      && d in t'
      && t'[d].owner == t[d].owner && t'[d].copy == t[d].copy && t'[d].editedBy == t[d].editedBy
      && (t[d].status in {Approved, Rejected} ==>
            t'[d].(supersededBy := None) == t[d].(supersededBy := None))
  }

  lemma NextGrows(t: Drafts, a: Action)
    ensures Grows(t, Next(t, a))
  {}

  // ---------------------------------------------------------------- the use cases

  lemma DecidingKeepsLinks(t: Drafts, id: Id, row: Draft)
    requires WellFormed(Links(t)) && id in t && row.owner == t[id].owner && row.supersededBy == t[id].supersededBy
    ensures OneLiveRow(Links(t[id := row]))
  {
    assert Links(t[id := row]) == Links(t);
  }

  /** The unique index holds between and after the two statements that replace a live draft. */
  lemma IndexHoldsThroughout(t: Drafts, live: Option<Id>, newId: Id, row: Draft)
    requires WellFormed(Links(t)) && newId !in t && IsLiveOf(Links(t), live, row.owner) && row.supersededBy == None
    ensures live.Some? ==> OneLiveRow(Links(t[live.value := t[live.value].(supersededBy := Some(newId))]))
    ensures OneLiveRow(Links(Replace(t, live, newId, row)))
  {
    UpdateThenAdd(Links(t), live, newId, row.owner);
    ReplaceIsSupersede(t, live, newId, row);
    if live.Some? {
      assert Links(t[live.value := t[live.value].(supersededBy := Some(newId))]) == Retire(Links(t), live.value, newId);
    }
  }

  /** A new draft past the gate: approved by nobody when approval is not required, and otherwise waiting for a person. */
  predicate PassedGate(row: Draft, owner: DraftOwner, copy: Copy, editedBy: Option<UserId>, autoApprove: bool, now: Time) {
    && row.owner == owner && row.copy == copy && row.editedBy == editedBy
    && (row.status == Approved <==> autoApprove) && (row.status == PendingApproval <==> !autoApprove)
    && row.approvedBy == None && row.approvedAt == (if autoApprove then Some(now) else None)
    && row.rejectionReason == None && row.supersededBy == None
  }

  /** The owner's live draft, if any, now points at the new one; every other draft is as it was. */
  ghost predicate ReplacesLive(t: Drafts, t': Drafts, owner: DraftOwner, newId: Id) {
    && newId !in t && t'.Keys == t.Keys + {newId}
    && forall d | d in t ::
         t'[d] == if t[d].owner == owner && t[d].supersededBy == None then t[d].(supersededBy := Some(newId)) else t[d]
  }

  lemma ReplacementReplacesLive(t: Drafts, live: Option<Id>, newId: Id, row: Draft)
    requires OneLiveRow(Links(t)) && IsLiveOf(Links(t), live, row.owner) && newId !in t
    ensures ReplacesLive(t, Replace(t, live, newId, row), row.owner, newId)
  {
    forall d | d in t && t[d].owner == row.owner && t[d].supersededBy == None ensures live == Some(d) {
      assert IsLive(Links(t), d);
    }
  }

  /** The table as the statements of one transaction see it. The unique index is the precondition of
      both statements, so a body that verifies never trips it. */
  class DraftTable {
    var rows: Drafts

    constructor ()
      ensures rows == map[] && Inv(rows)
    {
      rows := map[];
    }

    method Update(id: Id, row: Draft)
      requires id in rows && OneLiveRow(Links(rows[id := row]))
      modifies this
      ensures rows == old(rows)[id := row]
    {
      rows := rows[id := row];
    }

    method Add(id: Id, row: Draft)
      requires id !in rows && OneLiveRow(Links(rows[id := row]))
      modifies this
      ensures rows == old(rows)[id := row]
    {
      rows := rows[id := row];
    }

    method GetLive(owner: DraftOwner) returns (live: Option<Id>)
      requires Inv(rows)
      ensures live == LiveOf(Links(rows), owner)
    {
      LiveOfIsLive(Links(rows), owner);
      if exists a :: a in rows.Keys && rows[a].supersededBy == None && rows[a].owner == owner {
        var a :| a in rows.Keys && rows[a].supersededBy == None && rows[a].owner == owner;
        assert IsLive(Links(rows), a) && Links(rows)[a].owner == owner;
        live := Some(a);
      } else {
        live := None;
      }
    }

    /** The shared tail of regeneration and editing: retire the live row, then add the new one. */
    method ReplaceLive(live: Option<Id>, newId: Id, draft: ContentDraft)
      requires Inv(rows) && newId !in rows && draft.supersededBy == None
      requires IsLiveOf(Links(rows), live, draft.owner)
      modifies this
      ensures rows == Replace(old(rows), live, newId, draft.Row())
    {
      IndexHoldsThroughout(rows, live, newId, draft.Row());
      if live.Some? {
        var existing := new ContentDraft.Load(rows[live.value]);
        var retired := existing.MarkSuperseded(newId);
        Update(live.value, existing.Row());
      }
      Add(newId, draft.Row());
    }

    method CompleteContentDraftGeneration(owner: DraftOwner, copy: Copy, clean: bool, autoApprove: bool, newId: Id, now: Time)
      returns (r: Outcome<Option<Id>>)
      requires Inv(rows)
      modifies this
      ensures Inv(rows)
      ensures rows == Next(old(rows), Action.CompleteGeneration(owner, copy, clean, autoApprove, newId, now))
      ensures r == if !clean then Ok(None) else if newId in old(rows) then Err(Integrity) else Ok(Some(newId))
      ensures if r == Ok(Some(newId))
              then ReplacesLive(old(rows), rows, owner, newId) && PassedGate(rows[newId], owner, copy, None, autoApprove, now)
              else rows == old(rows)
    {
      NextKeepsInv(rows, Action.CompleteGeneration(owner, copy, clean, autoApprove, newId, now));
      if !clean { return Ok(None); }
      var existing := GetLive(owner);
      var draft := new ContentDraft.Create(owner, copy, None);
      var pending := draft.MarkPendingApproval();
      if autoApprove { var approved := draft.Approve(None, now); }
      if newId in rows { return Err(Integrity); }
      LiveOfIsLive(Links(rows), owner);
      ReplacementReplacesLive(rows, existing, newId, draft.Row());
      ReplaceLive(existing, newId, draft);
      return Ok(Some(newId));
    }

    method EditContentDraft(id: Id, copy: Copy, editor: UserId, clean: bool, autoApprove: bool, newId: Id, now: Time)
      returns (r: Outcome<Id>)
      requires Inv(rows)
      modifies this
      ensures Inv(rows)
      ensures rows == Next(old(rows), Action.Edit(id, copy, editor, clean, autoApprove, newId, now))
      ensures r == if id !in old(rows) then Err(NotFound)
                   else if old(rows)[id].supersededBy.Some? || !clean then Err(Validation)
                   else if newId in old(rows) then Err(Integrity) else Ok(newId)
      ensures if r.Ok?
              then var owner := old(rows)[id].owner;
                   ReplacesLive(old(rows), rows, owner, newId) && PassedGate(rows[newId], owner, copy, Some(editor), autoApprove, now)
              else rows == old(rows)
    {
      NextKeepsInv(rows, Action.Edit(id, copy, editor, clean, autoApprove, newId, now));
      if id !in rows { return Err(NotFound); }
      var existing := rows[id];
      if existing.supersededBy.Some? { return Err(Validation); }
      if !clean { return Err(Validation); }
      var draft := new ContentDraft.Create(existing.owner, copy, Some(editor));
      var pending := draft.MarkPendingApproval();
      if autoApprove { var approved := draft.Approve(None, now); }
      if newId in rows { return Err(Integrity); }
      ReplacementReplacesLive(rows, Some(id), newId, draft.Row());
      ReplaceLive(Some(id), newId, draft);
      return Ok(newId);
    }

    method ApproveContentDraft(id: Id, approver: UserId, now: Time) returns (r: Outcome<Id>)
      requires Inv(rows)
      modifies this
      ensures Inv(rows)
      ensures rows == Next(old(rows), Action.Approve(id, approver, now))
      ensures r == if id !in old(rows) then Err(NotFound)
                   else if old(rows)[id].status != PendingApproval then Err(Validation) else Ok(id)
      ensures rows == if r.Err? then old(rows)
                      else old(rows)[id := old(rows)[id].(status := Approved, approvedBy := Some(approver), approvedAt := Some(now))]
    {
      NextKeepsInv(rows, Action.Approve(id, approver, now));
      if id !in rows { return Err(NotFound); }
      var draft := new ContentDraft.Load(rows[id]);
      var ok := draft.Approve(Some(approver), now);
      if !ok { return Err(Validation); }
      DecidingKeepsLinks(rows, id, draft.Row());
      Update(id, draft.Row());
      return Ok(id);
    }

    method RejectContentDraft(id: Id, reason: string) returns (r: Outcome<Id>)
      requires Inv(rows)
      modifies this
      ensures Inv(rows)
      ensures rows == Next(old(rows), Action.Reject(id, reason))
      ensures r == if id !in old(rows) then Err(NotFound)
                   else if old(rows)[id].status != PendingApproval then Err(Validation) else Ok(id)
      ensures rows == if r.Err? then old(rows)
                      else old(rows)[id := old(rows)[id].(status := Rejected, rejectionReason := Some(reason))]
    {
      NextKeepsInv(rows, Action.Reject(id, reason));
      if id !in rows { return Err(NotFound); }
      var draft := new ContentDraft.Load(rows[id]);
      var ok := draft.Reject(reason);
      if !ok { return Err(Validation); }
      DecidingKeepsLinks(rows, id, draft.Row());
      Update(id, draft.Row());
      return Ok(id);
    }
  }
}
