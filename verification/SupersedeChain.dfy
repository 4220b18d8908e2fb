/** Tables that keep history by pointing a retired row at its replacement, under a partial unique
    index that allows one live row (no `superseded_by`) per owner. Catalog images are owned by a
    (variant, slot), content drafts by a (variant, channel, locale). */
module SupersedeChain {
  import opened Base

  datatype Link<K> = Link(owner: K, next: Option<Id>)

  type Table<K> = map<Id, Link<K>>

  predicate IsLive<K>(t: Table<K>, a: Id) { a in t && t[a].next == None }

  /** The partial unique index, checked at the end of every statement. */
  ghost predicate OneLiveRow<K(!new)>(t: Table<K>) {
    forall a, b | IsLive(t, a) && IsLive(t, b) && t[a].owner == t[b].owner :: a == b
  }

  predicate PointsTo<K>(t: Table<K>, a: Id, b: Id) { a in t && t[a].next == Some(b) }

  /** The deferred self-reference, checked at commit; replacements stay with their owner. */
  ghost predicate Closed<K(!new)>(t: Table<K>) {
    forall a, b | PointsTo(t, a, b) :: b in t && t[b].owner == t[a].owner
  }

  /** Following `superseded_by` n times. */
  function Walk<K>(t: Table<K>, a: Id, n: nat): Option<Id>
    decreases n
  {
    if a !in t then None
    else if n == 0 then Some(a)
    else if t[a].next == None then None
    else Walk(t, t[a].next.value, n - 1)
  }

  ghost predicate LiveAfter<K>(t: Table<K>, a: Id, n: nat) {
    Walk(t, a, n).Some? && IsLive(t, Walk(t, a, n).value)
  }

  ghost predicate EndsLive<K>(t: Table<K>, a: Id) {
    exists n: nat :: LiveAfter(t, a, n)
  }

  ghost predicate WellFormed<K(!new)>(t: Table<K>) {
    OneLiveRow(t) && Closed(t) && forall a | a in t :: EndsLive(t, a)
  }

  // ------------------------------------------------------------- the two statements

  function Retire<K>(t: Table<K>, retired: Id, successor: Id): Table<K>
    requires retired in t
  {
    t[retired := t[retired].(next := Some(successor))]
  }

  function Insert<K>(t: Table<K>, id: Id, owner: K): Table<K> {
    t[id := Link(owner, None)]
  }

  /** Retire the owner's live row, if it has one, then insert the replacement. */
  function Supersede<K>(t: Table<K>, live: Option<Id>, id: Id, owner: K): Table<K>
    requires live.Some? ==> live.value in t
  {
    Insert(if live.Some? then Retire(t, live.value, id) else t, id, owner)
  }

  /** What `get_live` answers: the owner's live row, or None when there is none. */
  ghost predicate IsLiveOf<K(!new)>(t: Table<K>, live: Option<Id>, owner: K) {
    match live
    case Some(a) => IsLive(t, a) && t[a].owner == owner
    case None => forall a | IsLive(t, a) :: t[a].owner != owner
  }

  ghost function LiveOf<K(!new)>(t: Table<K>, owner: K): Option<Id> {
    if a :| IsLive(t, a) && t[a].owner == owner then Some(a) else None
  }

  lemma LiveOfIsLive<K(!new)>(t: Table<K>, owner: K)
    ensures IsLiveOf(t, LiveOf(t, owner), owner)
  {
    if LiveOf(t, owner) == None {
      forall a | IsLive(t, a) ensures t[a].owner != owner {
        if t[a].owner == owner { assert false; }
      }
    }
  }

  /** Update-then-add: the index holds after each statement, the reference holds at commit,
      and the table stays well formed. */
  lemma UpdateThenAdd<K(!new)>(t: Table<K>, live: Option<Id>, id: Id, owner: K)
    requires WellFormed(t) && id !in t && IsLiveOf(t, live, owner)
    ensures live.Some? ==> OneLiveRow(Retire(t, live.value, id))
    ensures OneLiveRow(Supersede(t, live, id, owner))
    ensures WellFormed(Supersede(t, live, id, owner))
  {
    var t' := Supersede(t, live, id, owner);
    StaysUnique(t, live, id, owner);
    StaysClosed(t, live, id, owner);
    forall a | a in t'
      ensures EndsLive(t', a)
    {
      StillEndsLive(t, live, id, owner, a);
    }
  }

  lemma StaysUnique<K(!new)>(t: Table<K>, live: Option<Id>, id: Id, owner: K)
    requires OneLiveRow(t) && id !in t && IsLiveOf(t, live, owner)
    ensures live.Some? ==> OneLiveRow(Retire(t, live.value, id))
    ensures OneLiveRow(Supersede(t, live, id, owner))
  {
    var t' := Supersede(t, live, id, owner);
    forall a, b | IsLive(t', a) && IsLive(t', b) && t'[a].owner == t'[b].owner
      ensures a == b
    {
      assert a != id ==> IsLive(t, a);
      assert b != id ==> IsLive(t, b);
    }
    if live.Some? {
      var r := Retire(t, live.value, id);
      forall a, b | IsLive(r, a) && IsLive(r, b) && r[a].owner == r[b].owner
        ensures a == b
      {
        assert IsLive(t, a) && IsLive(t, b);
      }
    }
  }

  lemma StillEndsLive<K(!new)>(t: Table<K>, live: Option<Id>, id: Id, owner: K, a: Id)
    requires WellFormed(t) && id !in t && IsLiveOf(t, live, owner) && (a == id || a in t)
    ensures EndsLive(Supersede(t, live, id, owner), a)
  {
    if a == id {
      assert LiveAfter(Supersede(t, live, id, owner), id, 0);
    } else {
      assert EndsLive(t, a);
      var n: nat :| LiveAfter(t, a, n);
      WalkSurvives(t, live, id, owner, a, n);
    }
  }

  lemma StaysClosed<K(!new)>(t: Table<K>, live: Option<Id>, id: Id, owner: K)
    requires Closed(t) && id !in t && IsLiveOf(t, live, owner)
    ensures Closed(Supersede(t, live, id, owner))
  {
    var t' := Supersede(t, live, id, owner);
    forall a, b | PointsTo(t', a, b)
      ensures b in t' && t'[b].owner == t'[a].owner
    {
      if b != id { assert PointsTo(t, a, b); }
    }
  }

  /** A walk that ended at the retired row now takes one more step; every other walk is as before. */
  lemma {:induction false} WalkSurvives<K(!new)>(t: Table<K>, live: Option<Id>, id: Id, owner: K, a: Id, n: nat)
    requires Closed(t) && id !in t && IsLiveOf(t, live, owner) && LiveAfter(t, a, n)
    ensures EndsLive(Supersede(t, live, id, owner), a)
    decreases n
  {
    var t' := Supersede(t, live, id, owner);
    if n == 0 {
      if live == Some(a) {
        assert Walk(t', a, 1) == Walk(t', id, 0) == Some(id);
        assert LiveAfter(t', a, 1);
      } else {
        assert LiveAfter(t', a, 0);
      }
    } else {
      var b := t[a].next.value;
      assert PointsTo(t, a, b);
      assert Walk(t, a, n) == Walk(t, b, n - 1);
      WalkSurvives(t, live, id, owner, b, n - 1);
      var m: nat :| LiveAfter(t', b, m);
      assert Walk(t', a, m + 1) == Walk(t', b, m);
      assert LiveAfter(t', a, m + 1);
    }
  }

  /** Add-then-update trips the index right after the insert exactly when there was a live row. */
  lemma AddFirstRejected<K(!new)>(t: Table<K>, live: Option<Id>, id: Id, owner: K)
    requires OneLiveRow(t) && id !in t && IsLiveOf(t, live, owner)
    ensures OneLiveRow(Insert(t, id, owner)) <==> live == None
  {
    var t' := Insert(t, id, owner);
    if live.Some? {
      assert IsLive(t', id) && IsLive(t', live.value) && t'[live.value].owner == owner;
    }
  }

  // ------------------------------------------------------------- reading the history

  lemma {:induction false} WalkAdds<K>(t: Table<K>, a: Id, m: nat, n: nat)
    requires Walk(t, a, m).Some?
    ensures Walk(t, a, m + n) == Walk(t, Walk(t, a, m).value, n)
    decreases m
  {
    if m > 0 { WalkAdds(t, t[a].next.value, m - 1, n); }
  }

  lemma {:induction false} WalkKeepsOwner<K(!new)>(t: Table<K>, a: Id, n: nat)
    requires Closed(t) && Walk(t, a, n).Some?
    ensures Walk(t, a, n).value in t && t[Walk(t, a, n).value].owner == t[a].owner
    decreases n
  {
    if n > 0 {
      assert PointsTo(t, a, t[a].next.value);
      WalkKeepsOwner(t, t[a].next.value, n - 1);
    }
  }

  lemma {:induction false} LoopNeverEnds<K>(t: Table<K>, a: Id, m: nat, n: nat)
    requires m > 0 && Walk(t, a, m) == Some(a)
    ensures Walk(t, a, n).Some? && !LiveAfter(t, a, n)
    decreases n
  {
    if n < m {
      WalkPrefix(t, a, n, m);
    } else {
      WalkAdds(t, a, m, n - m);
      LoopNeverEnds(t, a, m, n - m);
    }
  }

  lemma {:induction false} WalkPrefix<K>(t: Table<K>, a: Id, n: nat, m: nat)
    requires n < m && Walk(t, a, m).Some?
    ensures Walk(t, a, n).Some? && !LiveAfter(t, a, n)
    decreases n
  {
    if n > 0 { WalkPrefix(t, t[a].next.value, n - 1, m - 1); }
  }

  /** `a` leads to `z` through `superseded_by`. */
  ghost predicate LeadsTo<K>(t: Table<K>, a: Id, z: Id) {
    exists n: nat :: Walk(t, a, n) == Some(z)
  }

  /** From any row, `superseded_by` leads to its owner's one live row ... */
  lemma HistoryEndsAtLiveRow<K(!new)>(t: Table<K>, a: Id) returns (z: Id)
    requires WellFormed(t) && a in t
    ensures LeadsTo(t, a, z) && IsLive(t, z) && t[z].owner == t[a].owner
    ensures forall b | IsLive(t, b) && t[b].owner == t[a].owner :: b == z
  {
    assert EndsLive(t, a);
    var n: nat :| LiveAfter(t, a, n);
    WalkKeepsOwner(t, a, n);
    z := Walk(t, a, n).value;
  }

  /** ... and never comes back to the row itself. */
  lemma HistoryIsAcyclic<K(!new)>(t: Table<K>, a: Id, m: nat)
    requires WellFormed(t) && a in t && m > 0
    ensures Walk(t, a, m) != Some(a)
  {
    assert EndsLive(t, a);
    var n: nat :| LiveAfter(t, a, n);
    if Walk(t, a, m) == Some(a) { LoopNeverEnds(t, a, m, n); }
  }
}
