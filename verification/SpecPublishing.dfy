/** Publishing one category's spec: each publish freezes a snapshot under the next version number. The version
    is allocated by reading the category's current version and adding one, so a publish may act on a version
    that another publish has already moved past; the unique constraint on (category, version) then refuses it
    and the whole transaction is undone. */
module SpecPublishing {
  import opened Base
  import opened SpecChanges
  import opened SpecSnapshotBuilder
  import opened SpecInheritance

  datatype Version = Version(snapshot: Snapshot, summary: Option<seq<Change>>)

  /** `own` lists the category's own definition rows by position; rows that tie may stand in any order. */
  datatype Spec = Spec(current: Option<nat>, draft: Option<nat>, versions: map<nat, Version>, own: seq<OwnRow>)

  const INIT := Spec(None, None, map[], [])

  /** Definitions are added and edited between publishes: an edit may change a row's position and whether it is
      required, never its key. */
  datatype Step =
    | AddRow(ref: RowRef, key: string, required: bool, at: nat)
    | EditRow(row: nat, at: nat, required: bool)
    | Publish(seen: Option<nat>, snapshot: Snapshot, changes: seq<Change>)

  /** The snapshot a publish compares with, by the version it read. */
  function PreviousOf(s: Spec, seen: Option<nat>): Snapshot
    requires seen.Some? ==> seen.value in s.versions
  {
    if seen.Some? then s.versions[seen.value].snapshot else EMPTY
  }

  function NextVersion(seen: Option<nat>): nat { if seen.Some? then seen.value + 1 else 1 }

  predicate AnyRenamed(changes: seq<Change>) { exists c | c in changes :: c.what == Renamed }

  /** What some earlier state of the category may have shown as its current version. */
  predicate MayHaveSeen(s: Spec, seen: Option<nat>) {
    seen.Some? ==> s.current.Some? && 1 <= seen.value <= s.current.value
  }

  /** Any snapshot may be published: what the builder makes of the own rows is a matter of the run, below. */
  ghost predicate Enabled(s: Spec, step: Step) {
    match step
    case AddRow(ref, _, _, at) =>
      && at <= |s.own|
      && (forall x | x in s.own :: x.ref != ref) && forall v | v in s.versions :: !HasRow(s.versions[v].snapshot, ref)
    case EditRow(row, at, _) => row < |s.own| && at < |s.own|
    case Publish(seen, snapshot, changes) =>
      && MayHaveSeen(s, seen)
      && (seen.Some? ==> seen.value in s.versions)
      && IsDiff(changes, KeysOf(PreviousOf(s, seen)), KeysOf(snapshot), RequiredIn(snapshot))
      && !AnyRenamed(changes)
      && NextVersion(seen) !in s.versions
  }

  function InsertAt(own: seq<OwnRow>, at: nat, x: OwnRow): seq<OwnRow>
    requires at <= |own|
  {
    own[..at] + [x] + own[at..]
  }

  function Without(own: seq<OwnRow>, row: nat): seq<OwnRow>
    requires row < |own|
  {
    own[..row] + own[row + 1..]
  }

  function StampedRow(x: OwnRow, version: nat): OwnRow {
    if x.introduced.None? then x.(introduced := Some(version)) else x
  }

  function Stamped(own: seq<OwnRow>, version: nat): seq<OwnRow> {
    seq(|own|, i requires 0 <= i < |own| => StampedRow(own[i], version))
  }

  function Stored(s: Spec, v: nat, snapshot: Snapshot, changes: seq<Change>): Spec {
    Spec(Some(v), None, s.versions[v := Version(snapshot, if changes == [] then None else Some(changes))], Stamped(s.own, v))
  }

  ghost function Next(s: Spec, step: Step): Spec {
    if !Enabled(s, step) then s else
    match step
    case AddRow(ref, key, required, at) => s.(own := InsertAt(s.own, at, OwnRow(ref, key, required, None)))
    case EditRow(row, at, required) => s.(own := InsertAt(Without(s.own, row), at, s.own[row].(required := required)))
    case Publish(seen, snapshot, changes) =>
      Stored(s, NextVersion(seen), snapshot, changes)
  }

  ghost function Exec(steps: seq<Step>): Spec {
    if steps == [] then INIT else Next(Exec(steps[..|steps| - 1]), steps[|steps| - 1])
  }

  // ---------------------------------------------------------------- what every state keeps

  function Latest(s: Spec): nat { if s.current.Some? then s.current.value else 0 }

  ghost predicate Gapless(s: Spec) {
    (s.current.Some? ==> s.current.value >= 1) && forall v :: v in s.versions <==> 1 <= v <= Latest(s)
  }

  function ChangesOf(v: Version): seq<Change> { if v.summary.Some? then v.summary.value else [] }

  /** The snapshot published before version v; nothing before the first. */
  function Before(s: Spec, v: nat): Snapshot
    requires v == 1 || (v >= 1 && v - 1 in s.versions)
  {
    if v == 1 then EMPTY else s.versions[v - 1].snapshot
  }

  ghost predicate FaithfulSummary(s: Spec, v: nat)
    requires v in s.versions && (v == 1 || (v >= 1 && v - 1 in s.versions))
  {
    var changes, snapshot := ChangesOf(s.versions[v]), s.versions[v].snapshot;
    IsDiff(changes, KeysOf(Before(s, v)), KeysOf(snapshot), RequiredIn(snapshot)) && !AnyRenamed(changes)
  }

  ghost predicate AllFaithful(s: Spec)
    requires Gapless(s)
  {
    forall v {:trigger FaithfulSummary(s, v)} :: v in s.versions ==> FaithfulSummary(s, v)
  }

  ghost predicate Inv(s: Spec) { Gapless(s) && AllFaithful(s) }

  /** Only a publish that saw the latest version gets through. */
  lemma WinnerSawLatest(s: Spec, step: Step)
    requires Gapless(s) && step.Publish? && Enabled(s, step)
    ensures NextVersion(step.seen) == Latest(s) + 1
    ensures step.seen == s.current
  {
    assert NextVersion(step.seen) !in s.versions;
  }

  lemma KeepsGapless(s: Spec, step: Step)
    requires Gapless(s)
    ensures Gapless(Next(s, step))
  {
    if step.Publish? && Enabled(s, step) { WinnerSawLatest(s, step); }
  }

  lemma KeepsSummary(s: Spec, step: Step, v: nat)
    requires Gapless(s) && (v in s.versions ==> FaithfulSummary(s, v))
    requires Gapless(Next(s, step)) && v in Next(s, step).versions
    ensures FaithfulSummary(Next(s, step), v)
  {
    var s' := Next(s, step);
    if step.Publish? && Enabled(s, step) {
      WinnerSawLatest(s, step);
      if v == Latest(s) + 1 {
        assert ChangesOf(s'.versions[v]) == step.changes;
        assert Before(s', v) == PreviousOf(s, step.seen);
      } else {
        assert FaithfulSummary(s, v) && Before(s', v) == Before(s, v);
      }
    } else {
      assert FaithfulSummary(s, v) && Before(s', v) == Before(s, v);
    }
  }

  lemma KeepsInv(s: Spec, step: Step)
    requires Inv(s)
    ensures Inv(Next(s, step))
  {
    KeepsGapless(s, step);
    forall v | v in Next(s, step).versions ensures FaithfulSummary(Next(s, step), v) { KeepsSummary(s, step, v); }
  }

  lemma {:induction false} EveryStateKeepsInv(steps: seq<Step>)
    ensures Inv(Exec(steps))
  {
    if steps != [] {
      EveryStateKeepsInv(steps[..|steps| - 1]);
      KeepsInv(Exec(steps[..|steps| - 1]), steps[|steps| - 1]);
    }
  }

  // ---------------------------------------------------------------- what follows for every run

  /** Over all publishes the versions are 1..current without gaps, whatever each publish had read. */
  lemma VersionsHaveNoGaps(steps: seq<Step>, v: nat)
    ensures v in Exec(steps).versions <==> 1 <= v <= Latest(Exec(steps))
  {
    EveryStateKeepsInv(steps);
  }

  /** An edit puts the row in its new place, required or not as asked and otherwise as it was, and leaves the order of
      the other rows alone. */
  lemma EditMeans(s: Spec, row: nat, at: nat, required: bool)
    requires row < |s.own| && at < |s.own|
    ensures var s' := Next(s, EditRow(row, at, required));
            && s' == s.(own := s'.own) && |s'.own| == |s.own|
            && s'.own[at] == s.own[row].(required := required) && Without(s'.own, at) == Without(s.own, row)
  {}

  ghost predicate Extends(s: Spec, s': Spec) {
    forall v | v in s.versions :: v in s'.versions && s'.versions[v] == s.versions[v]
  }

  lemma StepExtends(s: Spec, step: Step)
    ensures Extends(s, Next(s, step))
  {}

  lemma ExecExtends(steps: seq<Step>)
    requires steps != []
    ensures Extends(Exec(steps[..|steps| - 1]), Exec(steps))
  {
    StepExtends(Exec(steps[..|steps| - 1]), steps[|steps| - 1]);
  }

  /** A published version is never changed or removed. */
  lemma {:induction false} PublishedIsImmutable(run: seq<Step>, n: nat)
    requires n <= |run|
    ensures Extends(Exec(run[..n]), Exec(run))
    decreases |run| - n
  {
    if n == |run| {
      assert run[..n] == run;
    } else {
      PublishedIsImmutable(run, n + 1);
      assert run[..n + 1][..n] == run[..n];
      ExecExtends(run[..n + 1]);
      Transitive(Exec(run[..n]), Exec(run[..n + 1]), Exec(run));
    }
  }

  lemma Transitive(a: Spec, b: Spec, c: Spec)
    requires Extends(a, b) && Extends(b, c)
    ensures Extends(a, c)
  {}

  /** The key a classified row has in a version, if the version has the row. */
  function KeyIn(s: Spec, v: nat, ref: RowRef): Option<string> {
    if v in s.versions then At(KeysOf(s.versions[v].snapshot), ref) else None
  }

  ghost predicate InAll(s: Spec, ref: RowRef, a: nat, b: nat) {
    forall v | a <= v <= b :: KeyIn(s, v, ref).Some?
  }

  lemma KeyKept(s: Spec, ref: RowRef, v: nat)
    requires Gapless(s) && AllFaithful(s) && v > 1
    requires KeyIn(s, v - 1, ref).Some? && KeyIn(s, v, ref).Some?
    ensures KeyIn(s, v, ref) == KeyIn(s, v - 1, ref)
  {
    assert FaithfulSummary(s, v);
    var prev, next := KeysOf(Before(s, v)), KeysOf(s.versions[v].snapshot);
    RenamedIffKeyChanged(ChangesOf(s.versions[v]), prev, next, RequiredIn(s.versions[v].snapshot));
    assert !KeyChanged(prev, next);
  }

  lemma {:induction false} ConstantRun<T>(f: nat -> T, a: nat, b: nat)
    requires a <= b && forall v: nat | a < v <= b :: f(v) == f(v - 1)
    ensures f(b) == f(a)
    decreases b - a
  {
    if a < b { ConstantRun(f, a, b - 1); }
  }

  /** A row's key is constant over any stretch of versions that contain it. */
  lemma KeyIsConstant(steps: seq<Step>, ref: RowRef, a: nat, b: nat)
    requires 1 <= a <= b && InAll(Exec(steps), ref, a, b)
    ensures KeyIn(Exec(steps), b, ref) == KeyIn(Exec(steps), a, ref)
  {
    EveryStateKeepsInv(steps);
    KeyConstantIn(Exec(steps), ref, a, b);
  }

  lemma KeyConstantIn(s: Spec, ref: RowRef, a: nat, b: nat)
    requires Gapless(s) && AllFaithful(s) && 1 <= a <= b && InAll(s, ref, a, b)
    ensures KeyIn(s, b, ref) == KeyIn(s, a, ref)
  {
    forall v: nat | a < v <= b ensures KeyIn(s, v, ref) == KeyIn(s, v - 1, ref) { KeyKept(s, ref, v); }
    UnchangedThroughout(s, ref, a, b);
  }

  lemma UnchangedThroughout(s: Spec, ref: RowRef, a: nat, b: nat)
    requires a <= b && forall v: nat | a < v <= b :: KeyIn(s, v, ref) == KeyIn(s, v - 1, ref)
    ensures KeyIn(s, b, ref) == KeyIn(s, a, ref)
  {
    ConstantRun((v: nat) => KeyIn(s, v, ref), a, b);
  }

  function ReplayHistory(s: Spec, v: nat): map<RowRef, string>
    requires forall w | 1 <= w <= v :: w in s.versions
  {
    if v == 0 then map[] else Replay(ChangesOf(s.versions[v]), ReplayHistory(s, v - 1))
  }

  lemma {:induction false} HistoryReplaysIn(s: Spec, v: nat)
    requires Gapless(s) && AllFaithful(s) && v in s.versions
    ensures (forall w | 1 <= w <= v :: w in s.versions) && ReplayHistory(s, v) == KeysOf(s.versions[v].snapshot)
    decreases v
  {
    if v > 1 { HistoryReplaysIn(s, v - 1); }
    SummaryReplays(s, v);
  }

  lemma SummaryReplays(s: Spec, v: nat)
    requires Gapless(s) && AllFaithful(s) && v in s.versions
    ensures Replay(ChangesOf(s.versions[v]), if v == 1 then map[] else KeysOf(s.versions[v - 1].snapshot)) == KeysOf(s.versions[v].snapshot)
  {
    assert FaithfulSummary(s, v);
    var snapshot := s.versions[v].snapshot;
    NoKeys();
    DiffReplays(ChangesOf(s.versions[v]), KeysOf(Before(s, v)), KeysOf(snapshot), RequiredIn(snapshot));
  }

  /** The stored change summaries are a complete journal: replayed from nothing, up to any version, they give
      that version's rows and keys. */
  lemma SummariesAreAJournal(steps: seq<Step>, v: nat)
    requires v in Exec(steps).versions
    ensures forall w | 1 <= w <= v :: w in Exec(steps).versions
    ensures ReplayHistory(Exec(steps), v) == KeysOf(Exec(steps).versions[v].snapshot)
  {
    EveryStateKeepsInv(steps);
    HistoryReplaysIn(Exec(steps), v);
  }

  // ---------------------------------------------------------------- stamps

  ghost predicate LacksBefore(s: Spec, ref: RowRef, w: nat) {
    forall v | v in s.versions && v < w :: !HasRow(s.versions[v].snapshot, ref)
  }

  /** A stamp names a version, no earlier version has the row, and no version at all has an unstamped one. */
  ghost predicate HonestStamp(s: Spec, x: OwnRow) {
    match x.introduced
    case None => LacksBefore(s, x.ref, Latest(s) + 1)
    case Some(w) => w in s.versions && LacksBefore(s, x.ref, w)
  }

  ghost predicate StampsInv(s: Spec) { DistinctRefs(s.own) && forall x | x in s.own :: HonestStamp(s, x) }

  lemma InsertKeepsDistinct(a: seq<OwnRow>, x: OwnRow, b: seq<OwnRow>)
    requires DistinctRefs(a + b) && forall y | y in a + b :: y.ref != x.ref
    ensures DistinctRefs(a + [x] + b)
  {
    var whole := a + [x] + b;
    forall i, j | 0 <= i < j < |whole| ensures whole[i].ref != whole[j].ref {
      if i != |a| { assert whole[i] == (a + b)[if i < |a| then i else i - 1]; }
      if j != |a| { assert whole[j] == (a + b)[if j < |a| then j else j - 1]; }
    }
  }

  lemma RemoveKeepsDistinct(a: seq<OwnRow>, x: OwnRow, b: seq<OwnRow>)
    requires DistinctRefs(a + [x] + b)
    ensures DistinctRefs(a + b) && forall y | y in a + b :: y.ref != x.ref
  {
    var whole := a + [x] + b;
    assert whole[|a|] == x;
    forall i | 0 <= i < |a + b| ensures (a + b)[i] == whole[if i < |a| then i else i + 1] && (a + b)[i].ref != x.ref {}
  }

  lemma AddKeepsDistinct(s: Spec, step: Step)
    requires DistinctRefs(s.own) && step.AddRow? && Enabled(s, step)
    ensures DistinctRefs(Next(s, step).own)
    ensures forall x | x in Next(s, step).own :: x in s.own || x == OwnRow(step.ref, step.key, step.required, None)
  {
    var a, b := s.own[..step.at], s.own[step.at..];
    assert a + b == s.own;
    InsertKeepsDistinct(a, OwnRow(step.ref, step.key, step.required, None), b);
  }

  lemma EditKeepsDistinct(s: Spec, step: Step)
    requires DistinctRefs(s.own) && step.EditRow? && Enabled(s, step)
    ensures DistinctRefs(Next(s, step).own)
    ensures forall x | x in Next(s, step).own :: exists y :: y in s.own && SameRow(y, x)
  {
    var x, rest := s.own[step.row], Without(s.own, step.row);
    assert s.own == s.own[..step.row] + [x] + s.own[step.row + 1..];
    RemoveKeepsDistinct(s.own[..step.row], x, s.own[step.row + 1..]);
    assert rest[..step.at] + rest[step.at..] == rest;
    InsertKeepsDistinct(rest[..step.at], x.(required := step.required), rest[step.at..]);
    forall y | y in Next(s, step).own ensures exists z :: z in s.own && SameRow(z, y) {
      if y == x.(required := step.required) {
        assert SameRow(x, y) && x in s.own;
      } else {
        assert y in rest;
        assert y in s.own && SameRow(y, y);
      }
    }
  }

  /** The same definition row, edits aside. */
  predicate SameRow(x: OwnRow, y: OwnRow) { x.ref == y.ref && x.key == y.key && x.introduced == y.introduced }

  /** What may become of the own rows in one step: kept, edited, added unstamped, or stamped by a publish. */
  lemma RowOrigin(s: Spec, step: Step, x: OwnRow) returns (y: OwnRow)
    requires DistinctRefs(s.own) && x in Next(s, step).own
    ensures || (y in s.own && SameRow(y, x))
            || (step.AddRow? && Enabled(s, step) && x.ref == step.ref && x.introduced.None?)
            || (step.Publish? && Enabled(s, step) && y in s.own && y.introduced.None? && x == StampedRow(y, NextVersion(step.seen)))
  {
    y := x;
    if Enabled(s, step) {
      match step
      case AddRow(_, _, _, _) => AddKeepsDistinct(s, step);
      case EditRow(_, _, _) =>
        EditKeepsDistinct(s, step);
        y :| y in s.own && SameRow(y, x);
      case Publish(seen, _, _) =>
        var i :| 0 <= i < |s.own| && x == StampedRow(s.own[i], NextVersion(seen));
        y := s.own[i];
    }
  }

  lemma NewVersionOnly(s: Spec, step: Step)
    requires Gapless(s)
    ensures Latest(s) <= Latest(Next(s, step))
    ensures forall v | v in Next(s, step).versions && v <= Latest(s) :: v in s.versions && Next(s, step).versions[v] == s.versions[v]
    ensures step.Publish? && Enabled(s, step) ==> NextVersion(step.seen) == Latest(s) + 1 == Latest(Next(s, step))
    ensures step.Publish? && Enabled(s, step) ==>
              NextVersion(step.seen) in Next(s, step).versions
              && Next(s, step).versions[NextVersion(step.seen)].snapshot == step.snapshot
    ensures !(step.Publish? && Enabled(s, step)) ==> Next(s, step).versions == s.versions && Latest(Next(s, step)) == Latest(s)
  {
    if step.Publish? && Enabled(s, step) { WinnerSawLatest(s, step); }
  }

  lemma KeepsHonestStamp(s: Spec, step: Step, x: OwnRow)
    requires Gapless(s) && Gapless(Next(s, step)) && StampsInv(s) && x in Next(s, step).own
    ensures HonestStamp(Next(s, step), x)
  {
    var y := RowOrigin(s, step, x);
    NewVersionOnly(s, step);
    if y in s.own {
      assert HonestStamp(s, y);
      if y.introduced.None? && step.Publish? && Enabled(s, step) { PublishStampsAll(s, step, x); }
    }
  }

  lemma PublishStampsAll(s: Spec, step: Step, x: OwnRow)
    requires step.Publish? && Enabled(s, step) && x in Next(s, step).own
    ensures x.introduced.Some?
  {}

  lemma KeepsDistinct(s: Spec, step: Step)
    requires DistinctRefs(s.own)
    ensures DistinctRefs(Next(s, step).own)
  {
    if Enabled(s, step) {
      match step
      case AddRow(_, _, _, _) => AddKeepsDistinct(s, step);
      case EditRow(_, _, _) => EditKeepsDistinct(s, step);
      case Publish(_, _, _) =>
    }
  }

  lemma {:induction false} EveryStampIsHonest(steps: seq<Step>)
    ensures StampsInv(Exec(steps))
  {
    if steps != [] {
      var before, last := Exec(steps[..|steps| - 1]), steps[|steps| - 1];
      EveryStampIsHonest(steps[..|steps| - 1]);
      EveryStateKeepsInv(steps[..|steps| - 1]);
      KeepsGapless(before, last);
      KeepsDistinct(before, last);
      forall x | x in Next(before, last).own ensures HonestStamp(Next(before, last), x) { KeepsHonestStamp(before, last, x); }
    }
  }

  /** In every run: no version before a row's `introduced_in_version` has the row, and none at all has an own row
      that is not stamped yet. */
  lemma NoVersionBeforeStamp(steps: seq<Step>, x: OwnRow, v: nat)
    requires x in Exec(steps).own && v in Exec(steps).versions
    ensures x.introduced.Some? ==> x.introduced.value in Exec(steps).versions
    ensures x.introduced.None? || v < x.introduced.value ==> !HasRow(Exec(steps).versions[v].snapshot, x.ref)
  {
    EveryStampIsHonest(steps);
    EveryStateKeepsInv(steps);
    assert HonestStamp(Exec(steps), x);
  }

  /** The publish that stamped a row: before it the row stood in the list without a stamp. */
  ghost predicate IsStamping(steps: seq<Step>, n: nat, i: nat, ref: RowRef, w: nat) {
    && n < |steps| && steps[n].Publish? && Enabled(Exec(steps[..n]), steps[n]) && NextVersion(steps[n].seen) == w
    && i < |Exec(steps[..n]).own| && Exec(steps[..n]).own[i].ref == ref && Exec(steps[..n]).own[i].introduced.None?
    && w in Exec(steps).versions && Exec(steps).versions[w].snapshot == steps[n].snapshot
  }

  lemma {:induction false} StampedBy(steps: seq<Step>, x: OwnRow) returns (n: nat, i: nat)
    requires x in Exec(steps).own && x.introduced.Some?
    ensures IsStamping(steps, n, i, x.ref, x.introduced.value)
  {
    var m := |steps| - 1;
    var before, last := Exec(steps[..m]), steps[m];
    EveryStampIsHonest(steps[..m]);
    EveryStateKeepsInv(steps[..m]);
    NewVersionOnly(before, last);
    var y := RowOrigin(before, last, x);
    if y in before.own && SameRow(y, x) {
      n, i := StampedBy(steps[..m], y);
      assert steps[..m][..n] == steps[..n];
    } else {
      n := m;
      i :| 0 <= i < |before.own| && before.own[i] == y;
    }
  }

  /** How the program publishes: the snapshot is the builder's, from the own rows as they stand and whatever the
      ancestors hold. */
  ghost predicate FromBuilder(snapshot: Snapshot, own: seq<OwnRow>, self: CatId) {
    exists above :: Foreign(above, own, self) && BuiltFrom(snapshot, above, own, self)
  }

  ghost predicate BuilderRun(steps: seq<Step>, self: CatId) {
    forall n | 0 <= n < |steps| && steps[n].Publish? :: FromBuilder(steps[n].snapshot, Exec(steps[..n]).own, self)
  }

  ghost predicate IsFirstVersion(s: Spec, ref: RowRef, w: nat) {
    w in s.versions && HasRow(s.versions[w].snapshot, ref) && LacksBefore(s, ref, w)
  }

  /** A stamp names the first version with the row if and only if, when it was stamped, no later own row of its
      kind had its key. */
  lemma StampIsFirstVersionIff(steps: seq<Step>, self: CatId, x: OwnRow) returns (n: nat, i: nat)
    requires BuilderRun(steps, self) && x in Exec(steps).own && x.introduced.Some?
    ensures IsStamping(steps, n, i, x.ref, x.introduced.value)
    ensures IsFirstVersion(Exec(steps), x.ref, x.introduced.value) <==> !Shadowed(Exec(steps[..n]).own, i)
  {
    n, i := StampedBy(steps, x);
    EveryStampIsHonest(steps);
    assert HonestStamp(Exec(steps), x);
    EveryStampIsHonest(steps[..n]);
    var own := Exec(steps[..n]).own;
    assert FromBuilder(steps[n].snapshot, own, self);
    var above :| Foreign(above, own, self) && BuiltFrom(steps[n].snapshot, above, own, self);
    OwnRowListedIff(steps[n].snapshot, above, own, self, i);
  }

  /** A shadowed row is stamped all the same, with a version that does not have it. */
  lemma ShadowedIsStampedAnyway(s: Spec, step: Step, self: CatId, i: nat)
    requires Gapless(s) && DistinctRefs(s.own) && step.Publish? && Enabled(s, step) && FromBuilder(step.snapshot, s.own, self)
    requires i < |s.own| && s.own[i].introduced.None? && Shadowed(s.own, i)
    ensures var s' := Next(s, step); var w := NextVersion(step.seen);
            && |s'.own| == |s.own| && s'.own[i] == s.own[i].(introduced := Some(w))
            && w in s'.versions && !HasRow(s'.versions[w].snapshot, s.own[i].ref)
  {
    var above :| Foreign(above, s.own, self) && BuiltFrom(step.snapshot, above, s.own, self);
    OwnRowListedIff(step.snapshot, above, s.own, self, i);
  }

  function Twins(a: string, b: string, key: string): seq<OwnRow> {
    [OwnRow(RowRef(Attribute, a), key, false, None), OwnRow(RowRef(Attribute, b), key, false, None)]
  }

  /** Two attributes of one key, added and published: a run after which the first is stamped 1 and version 1 does
      not have it. */
  lemma TwinRowsRun(self: CatId, a: string, b: string, key: string) returns (steps: seq<Step>)
    requires a != b
    ensures BuilderRun(steps, self)
    ensures var s := Exec(steps);
            && |s.own| == 2 && s.own[0].ref == RowRef(Attribute, a) && s.own[0].introduced == Some(1)
            && 1 in s.versions && !HasRow(s.versions[1].snapshot, s.own[0].ref)
  {
    var adds := AddTwins(a, b, key);
    var publish := Publish(None, Snapshot([SnapRow(b, key, false)], [], [], []), [Change(AddedOptional, Attribute, b, key, None)]);
    steps := adds + [publish];
    TwinsBuilt(self, a, b, key);
    assert steps[..|adds|] == adds;
    BuilderRunSnoc(adds, publish, self);
    TwinsPublished(Exec(adds), publish, self, a, b, key);
  }

  lemma BuilderRunSnoc(steps: seq<Step>, last: Step, self: CatId)
    requires BuilderRun(steps, self) && (last.Publish? ==> FromBuilder(last.snapshot, Exec(steps).own, self))
    ensures BuilderRun(steps + [last], self)
  {
    var run := steps + [last];
    forall n | 0 <= n < |run| && run[n].Publish? ensures FromBuilder(run[n].snapshot, Exec(run[..n]).own, self) {
      if n < |steps| { assert run[..n] == steps[..n] && run[n] == steps[n]; } else { assert run[..n] == steps; }
    }
  }

  lemma AddTwins(a: string, b: string, key: string) returns (steps: seq<Step>)
    requires a != b
    ensures Exec(steps) == Spec(None, None, map[], Twins(a, b, key))
    ensures forall n | 0 <= n < |steps| :: !steps[n].Publish?
  {
    steps := [AddRow(RowRef(Attribute, a), key, false, 0), AddRow(RowRef(Attribute, b), key, false, 1)];
    TwinsAdded(steps[0], steps[1], a, b, key);
  }

  lemma TwinsPublished(s: Spec, publish: Step, self: CatId, a: string, b: string, key: string)
    requires a != b && s == Spec(None, None, map[], Twins(a, b, key))
    requires publish == Publish(None, Snapshot([SnapRow(b, key, false)], [], [], []), [Change(AddedOptional, Attribute, b, key, None)])
    requires FromBuilder(publish.snapshot, s.own, self)
    ensures var s' := Next(s, publish);
            && |s'.own| == 2 && s'.own[0].ref == RowRef(Attribute, a) && s'.own[0].introduced == Some(1)
            && 1 in s'.versions && !HasRow(s'.versions[1].snapshot, s'.own[0].ref)
  {
    TwinsPublishable(s, publish, a, b, key);
    assert s.own[1].ref.kind == s.own[0].ref.kind && s.own[1].key == s.own[0].key;
    ShadowedIsStampedAnyway(s, publish, self, 0);
  }

  lemma TwinsPublishable(s: Spec, publish: Step, a: string, b: string, key: string)
    requires s == Spec(None, None, map[], Twins(a, b, key))
    requires publish == Publish(None, Snapshot([SnapRow(b, key, false)], [], [], []), [Change(AddedOptional, Attribute, b, key, None)])
    ensures Enabled(s, publish)
  {
    OneRowDiffers(b, key);
  }

  lemma TwinsAdded(add1: Step, add2: Step, a: string, b: string, key: string)
    requires a != b && add1 == AddRow(RowRef(Attribute, a), key, false, 0) && add2 == AddRow(RowRef(Attribute, b), key, false, 1)
    ensures Exec([add1, add2]) == Spec(None, None, map[], Twins(a, b, key))
  {
    var own := Twins(a, b, key);
    assert [add1, add2][..1] == [add1] && [add1][..0] == [];
    var s1 := Spec(None, None, map[], [own[0]]);
    assert InsertAt([], 0, own[0]) == [own[0]];
    assert Exec([]) == INIT && Exec([add1]) == Next(INIT, add1) == s1;
    assert InsertAt(s1.own, 1, own[1]) == own;
  }

  lemma TwinsBuilt(self: CatId, a: string, b: string, key: string)
    requires a != b
    ensures FromBuilder(Snapshot([SnapRow(b, key, false)], [], [], []), Twins(a, b, key), self)
  {
    var above, own := Above([], [], [], [], []), Twins(a, b, key);
    var snapshot := Snapshot([SnapRow(b, key, false)], [], [], []);
    forall kind: RowKind ensures ListsWinners(snapshot.Section(kind), above.chain + [self], Fetched(above, own, kind, self)) {
      TwinsSection(self, a, b, key, kind);
      forall k ensures LastWith(OwnSection(own, kind, self), k)
                       == if kind == Attribute && k == key then Some(Row(self, key, Def(b, false))) else None
      {
        TwinsLast(Row(self, key, Def(a, false)), Row(self, key, Def(b, false)), k);
      }
      OwnRowsAlone(own, kind, self, snapshot.Section(kind));
    }
    assert BuiltFrom(snapshot, above, own, self) && Foreign(above, own, self);
  }

  lemma TwinsSection(self: CatId, a: string, b: string, key: string, kind: RowKind)
    ensures OwnSection(Twins(a, b, key), kind, self)
            == if kind == Attribute then [Row(self, key, Def(a, false)), Row(self, key, Def(b, false))] else []
  {
    var own := Twins(a, b, key);
    assert own[..1] == [own[0]] && [own[0]][..0] == [];
    assert OwnSection([own[0]], kind, self) == OwnSection([], kind, self) + (if kind == Attribute then [Row(self, key, Def(a, false))] else []);
  }

  lemma TwinsLast(r: Row<Def>, q: Row<Def>, k: string)
    requires r.key == q.key
    ensures LastWith([r, q], k) == if k == q.key then Some(q) else None
    ensures LastWith<Def>([], k) == None
  {
    assert [r, q][..1] == [r] && [r][..0] == [];
    assert LastWith([r], k) == if k == r.key then Some(r) else None;
  }

  lemma OneRowDiffers(b: string, key: string)
    ensures var snapshot := Snapshot([SnapRow(b, key, false)], [], [], []);
            IsDiff([Change(AddedOptional, Attribute, b, key, None)], KeysOf(EMPTY), KeysOf(snapshot), RequiredIn(snapshot))
  {
    var snapshot := Snapshot([SnapRow(b, key, false)], [], [], []);
    var ref, c := RowRef(Attribute, b), Change(AddedOptional, Attribute, b, key, None);
    NoKeys();
    OneRowKeys(b, key);
    CoverOne(c, map[], map[ref := key], {});
    EveryRefInScope(ref);
    assert Mentions([c], ref);
  }

  lemma OneRowKeys(b: string, key: string)
    ensures var snapshot := Snapshot([SnapRow(b, key, false)], [], [], []);
            KeysOf(snapshot) == map[RowRef(Attribute, b) := key] && RequiredIn(snapshot) == {}
  {
    var snapshot := Snapshot([SnapRow(b, key, false)], [], [], []);
    OneRowById(SnapRow(b, key, false));
    forall ref: RowRef
      ensures At(KeysOf(snapshot), ref) == if ref == RowRef(Attribute, b) then Some(key) else None
      ensures ref !in RequiredIn(snapshot)
    {
      OneRowAt(snapshot, ref);
    }
    SameKeys(KeysOf(snapshot), map[RowRef(Attribute, b) := key]);
  }

  lemma OneRowById(row: SnapRow)
    ensures ById([row]) == map[row.id := row] && ById([]) == map[]
  {
    assert [row][..0] == [];
  }

  lemma OneRowAt(snapshot: Snapshot, ref: RowRef)
    requires snapshot.axes == snapshot.inputSlots == snapshot.catalogSlots == [] && |snapshot.attributes| == 1
    requires var row := snapshot.attributes[0]; !row.required && ById([row]) == map[row.id := row] && ById([]) == map[]
    ensures var row := snapshot.attributes[0];
            At(KeysOf(snapshot), ref) == if ref == RowRef(Attribute, row.id) then Some(row.key) else None
    ensures ref !in RequiredIn(snapshot)
  {
    assert snapshot.attributes == [snapshot.attributes[0]];
    match ref.kind
    case Attribute => SectionOfSnapshot(snapshot, Attribute);
    case VariantAxis =>
    case InputSlot => SectionOfSnapshot(snapshot, InputSlot);
    case CatalogSlot => SectionOfSnapshot(snapshot, CatalogSlot);
  }

  // ---------------------------------------------------------------- the use case

  lemma PublishableIff(s: Spec, seen: Option<nat>, snapshot: Snapshot, changes: seq<Change>)
    requires MayHaveSeen(s, seen) && (seen.Some? ==> seen.value in s.versions)
    requires IsDiff(changes, KeysOf(PreviousOf(s, seen)), KeysOf(snapshot), RequiredIn(snapshot))
    ensures AnyRenamed(changes) <==> KeyChanged(KeysOf(PreviousOf(s, seen)), KeysOf(snapshot))
    ensures Enabled(s, Publish(seen, snapshot, changes)) <==> !AnyRenamed(changes) && NextVersion(seen) !in s.versions
  {
    RenamedIffKeyChanged(changes, KeysOf(PreviousOf(s, seen)), KeysOf(snapshot), RequiredIn(snapshot));
  }

  /** One category's rows: `categories`, `category_spec_versions` and the four tables of definitions. */
  class CategorySpec {
    const id: CatId
    var current: Option<nat>
    var draft: Option<nat>
    var versions: map<nat, Version>
    var own: seq<OwnRow>

    function State(): Spec
      reads this
    {
      Spec(current, draft, versions, own)
    }

    constructor (id: CatId)
      ensures State() == INIT && this.id == id
    {
      this.id := id;
      current, draft, versions, own := None, None, map[], [];
    }

    /** Stamp the own rows of one kind that have no version yet. */
    method StampKind(kind: RowKind, version: nat)
      modifies this`own
      ensures |own| == |old(own)|
      ensures forall i | 0 <= i < |own| ::
                own[i] == if old(own)[i].ref.kind == kind then StampedRow(old(own)[i], version) else old(own)[i]
      ensures forall i | 0 <= i < |own| && old(own)[i].ref.kind == kind ::
                own[i].introduced == if old(own)[i].introduced.None? then Some(version) else old(own)[i].introduced
    {
      for i := 0 to |own|
        invariant |own| == |old(own)|
        invariant forall k | 0 <= k < i ::
                    own[k] == if old(own)[k].ref.kind == kind then StampedRow(old(own)[k], version) else old(own)[k]
        invariant forall k | i <= k < |own| :: own[k] == old(own)[k]
      {
        if own[i].ref.kind == kind && own[i].introduced.None? { own := own[i := own[i].(introduced := Some(version))]; }
      }
    }

    method StampAll(version: nat)
      modifies this`own
      ensures own == Stamped(old(own), version)
    {
      StampKind(Attribute, version);
      StampKind(VariantAxis, version);
      StampKind(InputSlot, version);
      StampKind(CatalogSlot, version);
    }

    /** `PublishCategorySpec`, with the version its first read returned and the rows its ancestors hold. It succeeds
        exactly when that version exists, no key changed and nobody else published meanwhile. */
    method PublishCategorySpec(seen: Option<nat>, above: Above)
      returns (r: Outcome<nat>, ghost snapshot: Snapshot, ghost changes: seq<Change>)
      requires MayHaveSeen(State(), seen)
      modifies this
      ensures BuiltFrom(snapshot, above, old(own), id)
      ensures r.Ok? ==> Enabled(old(State()), Publish(seen, snapshot, changes)) && r.result == NextVersion(seen)
      ensures State() == if r.Ok? then Next(old(State()), Publish(seen, snapshot, changes)) else old(State())
      ensures r == if seen.Some? && seen.value !in old(versions) then Err(NotFound)
                   else if exists kind: RowKind, key: string :: RowRenamed(kind, key, PreviousOf(old(State()), seen), snapshot)
                   then Err(Validation)
                   else if NextVersion(seen) in old(versions) then Err(Integrity)
                   else Ok(NextVersion(seen))
      ensures r.Ok? ==>
                && r.result == (match seen case None => 1 case Some(v) => v + 1)
                && current == Some(r.result) && draft == None
                && versions == old(versions)[r.result := Version(snapshot, if changes == [] then None else Some(changes))]
                && |own| == |old(own)| && forall i | 0 <= i < |own| ::
                     own[i] == old(own)[i].(introduced := if old(own)[i].introduced.None? then Some(r.result) else old(own)[i].introduced)
    {
      var built := Build(above, own, id);
      snapshot, changes := built, [];
      var previous: Option<Snapshot> := None;
      if seen.Some? {
        if seen.value !in versions { return Err(NotFound), snapshot, []; }
        previous := Some(versions[seen.value].snapshot);
      }
      var found := ClassifyChanges(previous, built);
      changes := found;
      PublishableIff(State(), seen, built, found);
      KeyChangedMeans(PreviousOf(State(), seen), built);
      if exists c :: c in found && c.what == Renamed { return Err(Validation), snapshot, found; }
      var stored := Store(NextVersion(seen), built, found);
      if !stored { return Err(Integrity), snapshot, found; }
      return Ok(NextVersion(seen)), snapshot, found;
    }

    /** Stamp, insert the version, advance the category: undone as a whole when the insert is refused. */
    method Store(version: nat, snapshot: Snapshot, changes: seq<Change>) returns (stored: bool)
      modifies this
      ensures stored == (version !in old(versions))
      ensures State() == if stored then Stored(old(State()), version, snapshot, changes) else old(State())
    {
      var before := own;
      StampAll(version);
      if version in versions {
        own := before;
        return false;
      }
      versions := versions[version := Version(snapshot, if changes == [] then None else Some(changes))];
      current, draft := Some(version), None;
      return true;
    }
  }
}
