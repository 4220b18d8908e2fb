/** The `Publication` entity: one row per attempted post to a channel. */
module Publications {
  import opened Base

  type Key = string
  type PostId = string

  datatype Status = Scheduled | Dispatching | Published | Failed | Dead | Cancelled

  datatype Row = Row(
    variant: Id, channel: Id, draft: Option<Id>, key: Key,
    status: Status, dueAt: Time, publishedAt: Option<Time>, postId: Option<PostId>,
    attempts: nat, lastError: Option<string>)
  {
    predicate Live() { status in {Scheduled, Dispatching, Failed} }
    predicate Claimable() { status in {Scheduled, Failed} }
    predicate Terminal() { status in {Published, Dead, Cancelled} }

    function Dispatched(): Row { this.(status := Dispatching) }
    function DispatchDeferred(until: Time): Row { this.(dueAt := until) }
    function CancelledRow(): Row { this.(status := Cancelled) }
    function PublishedAs(post: PostId, now: Time): Row {
      this.(status := Published, postId := Some(post), publishedAt := Some(now))
    }
    function AttemptFailed(error: string, terminal: bool): Row {
      this.(status := if terminal then Dead else Failed, attempts := attempts + 1, lastError := Some(error))
    }
    function DeferredTo(reason: string, due: Time): Row {
      this.(status := Scheduled, dueAt := due, lastError := Some(reason))
    }
  }

  function NewRow(variant: Id, channel: Id, draft: Option<Id>, key: Key, dueAt: Option<Time>, now: Time): Row {
    Row(variant, channel, draft, key, Scheduled, if dueAt.Some? then dueAt.value else now, None, None, 0, None)
  }

  /** The entity a transaction loads, mutates and flushes. The idempotency key cannot be assigned. */
  class Publication {
    const variant: Id
    const channel: Id
    const draft: Option<Id>
    const key: Key
    var status: Status
    var dueAt: Time
    var publishedAt: Option<Time>
    var postId: Option<PostId>
    var attempts: nat
    var lastError: Option<string>

    function AsRow(): Row
      reads this
    {
      Row(variant, channel, draft, key, status, dueAt, publishedAt, postId, attempts, lastError)
    }

    constructor Create(variant: Id, channel: Id, draft: Option<Id>, key: Key, dueAt: Option<Time>, now: Time)
      ensures AsRow() == NewRow(variant, channel, draft, key, dueAt, now)
      ensures this.variant == variant && this.channel == channel && this.draft == draft && this.key == key
      ensures status == Scheduled && this.dueAt == (match dueAt case None => now case Some(at) => at)
      ensures attempts == 0 && postId == None && publishedAt == None && lastError == None
    {
      this.variant, this.channel, this.draft, this.key := variant, channel, draft, key;
      status, publishedAt, postId, attempts, lastError := Scheduled, None, None, 0, None;
      this.dueAt := if dueAt.Some? then dueAt.value else now;
    }

    constructor Load(row: Row)
      ensures AsRow() == row
    {
      variant, channel, draft, key := row.variant, row.channel, row.draft, row.key;
      status, dueAt, publishedAt, postId := row.status, row.dueAt, row.publishedAt, row.postId;
      attempts, lastError := row.attempts, row.lastError;
    }

    method DeferDispatch(until: Time) returns (ok: bool)
      modifies this
      ensures ok == (old(status) == Scheduled)
      ensures AsRow() == if ok then old(AsRow()).(dueAt := until) else old(AsRow())
    {
      if status != Scheduled { return false; }
      dueAt := until;
      return true;
    }

    method MarkDispatching() returns (ok: bool)
      modifies this
      ensures ok == (old(status) in {Scheduled, Failed})
      ensures AsRow() == if ok then old(AsRow()).(status := Dispatching) else old(AsRow())
    {
      if status !in {Scheduled, Failed} { return false; }
      status := Dispatching;
      return true;
    }

    method MarkPublished(post: PostId, now: Time) returns (ok: bool)
      modifies this
      ensures ok == (old(status) == Dispatching)
      ensures AsRow() == if ok then old(AsRow()).(status := Published, postId := Some(post), publishedAt := Some(now))
                         else old(AsRow())
    {
      if status != Dispatching { return false; }
      status, postId, publishedAt := Published, Some(post), Some(now);
      return true;
    }

    method RecordAttemptFailure(error: string, terminal: bool) returns (ok: bool)
      modifies this
      ensures ok == (old(status) == Dispatching)
      ensures AsRow() == if ok then old(AsRow()).(status := if terminal then Dead else Failed, attempts := old(attempts) + 1,
                                                  lastError := Some(error)) else old(AsRow())
    {
      if status != Dispatching { return false; }
      attempts := attempts + 1;
      lastError := Some(error);
      status := if terminal then Dead else Failed;
      return true;
    }

    method Defer(reason: string, due: Time) returns (ok: bool)
      modifies this
      ensures ok == (old(status) == Dispatching)
      ensures AsRow() == if ok then old(AsRow()).(status := Scheduled, dueAt := due, lastError := Some(reason)) else old(AsRow())
    {
      if status != Dispatching { return false; }
      lastError := Some(reason);
      status, dueAt := Scheduled, due;
      return true;
    }

    method Cancel() returns (ok: bool)
      modifies this
      ensures ok == (old(status) == Scheduled)
      ensures AsRow() == if ok then old(AsRow()).(status := Cancelled) else old(AsRow())
    {
      if status != Scheduled { return false; }
      status := Cancelled;
      return true;
    }
  }
}
