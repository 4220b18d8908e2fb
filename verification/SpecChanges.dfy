/** The difference between two spec snapshots, row by row and matched by id: additions, retirements and the
    renames that a publish refuses. */
module SpecChanges {
  import opened Base

  datatype RowKind = Attribute | VariantAxis | InputSlot | CatalogSlot

  datatype SnapRow = SnapRow(id: string, key: string, required: bool)

  datatype Snapshot = Snapshot(attributes: seq<SnapRow>, axes: seq<SnapRow>, inputSlots: seq<SnapRow>, catalogSlots: seq<SnapRow>) {
    function Section(kind: RowKind): seq<SnapRow> {
      match kind
      case Attribute => attributes
      case VariantAxis => axes
      case InputSlot => inputSlots
      case CatalogSlot => catalogSlots
    }
  }

  const EMPTY := Snapshot([], [], [], [])

  const ALL_KINDS: seq<RowKind> := [Attribute, VariantAxis, InputSlot, CatalogSlot]

  /** Axes are left out of the comparison, and a catalog slot is never a required addition. */
  const CLASSIFIED: seq<RowKind> := [Attribute, InputSlot, CatalogSlot]

  predicate IsClassified(kind: RowKind) { !kind.VariantAxis? }

  predicate HonoursRequired(kind: RowKind) { kind.Attribute? || kind.InputSlot? }

  datatype ChangeType = AddedOptional | AddedRequired | Retired | Renamed

  datatype Change = Change(what: ChangeType, kind: RowKind, id: string, key: string, previousKey: Option<string>)

  // ---------------------------------------------------------------- rows by id

  /** A Python dictionary built row by row: a later row of the same id replaces an earlier one. */
  function ById(rows: seq<SnapRow>): (m: map<string, SnapRow>)
    ensures forall id | id in m :: m[id].id == id
  {
    if rows == [] then map[]
    else
      var last := rows[|rows| - 1];
      ById(rows[..|rows| - 1])[last.id := last]
  }

  lemma {:induction false} ByIdListsRow(rows: seq<SnapRow>, row: SnapRow)
    requires row in rows
    ensures row.id in ById(rows)
  {
    var n := |rows| - 1;
    if row != rows[n] {
      assert rows == rows[..n] + [rows[n]];
      ByIdListsRow(rows[..n], row);
    }
  }

  lemma {:induction false} ByIdHoldsRows(rows: seq<SnapRow>, id: string)
    requires id in ById(rows)
    ensures ById(rows)[id] in rows
  {
    var n := |rows| - 1;
    if rows[n].id != id {
      ByIdHoldsRows(rows[..n], id);
      assert rows == rows[..n] + [rows[n]];
    }
  }

  predicate IsLastOfId(rows: seq<SnapRow>, k: nat, id: string) {
    k < |rows| && rows[k].id == id && forall j | k < j < |rows| :: rows[j].id != id
  }

  /** Of several rows of one id the last counts. */
  lemma {:induction false} LastOfIdCounts(rows: seq<SnapRow>, k: nat, id: string)
    requires IsLastOfId(rows, k, id)
    ensures id in ById(rows) && ById(rows)[id] == rows[k]
  {
    var n := |rows| - 1;
    if k < n {
      assert IsLastOfId(rows[..n], k, id);
      LastOfIdCounts(rows[..n], k, id);
    }
  }

  predicate Lists(order: seq<string>, m: map<string, SnapRow>) {
    (forall id | id in m :: id in order) && (forall k | 0 <= k < |order| :: order[k] in m)
    && Distinct(order)
  }

  /** The same dictionary with its iteration order: an id stays where it was first seen. */
  method BuildDict(rows: seq<SnapRow>) returns (m: map<string, SnapRow>, order: seq<string>)
    ensures m == ById(rows) && Lists(order, m)
  {
    m, order := map[], [];
    for i := 0 to |rows|
      invariant m == ById(rows[..i]) && Lists(order, m)
    {
      assert rows[..i + 1][..i] == rows[..i];
      if rows[i].id !in m { order := order + [rows[i].id]; }
      m := m[rows[i].id := rows[i]];
    }
    assert rows[..|rows|] == rows;
  }

  // ---------------------------------------------------------------- what a change list says

  datatype RowRef = RowRef(kind: RowKind, id: string)

  function RefOf(c: Change): RowRef { RowRef(c.kind, c.id) }

  /** The classified rows of a snapshot and their keys. */
  function KeysOf(s: Snapshot): map<RowRef, string> {
    map kind, id | IsClassified(kind) && id in ById(s.Section(kind)) :: RowRef(kind, id) := ById(s.Section(kind))[id].key
  }

  function RequiredIn(s: Snapshot): set<RowRef> {
    set kind, id | IsClassified(kind) && id in ById(s.Section(kind)) && ById(s.Section(kind))[id].required :: RowRef(kind, id)
  }

  function At(m: map<RowRef, string>, ref: RowRef): Option<string> { if ref in m then Some(m[ref]) else None }

  /** One entry tells the truth about its row. */
  predicate Truthful(c: Change, prev: map<RowRef, string>, next: map<RowRef, string>, required: set<RowRef>) {
    var ref := RefOf(c);
    && At(next, ref) == (if c.what == Retired then None else Some(c.key))
    && match c.what
       case Retired => At(prev, ref) == Some(c.key) && c.previousKey == None
       case Renamed => c.previousKey.Some? && At(prev, ref) == c.previousKey && c.previousKey != Some(c.key)
       case AddedRequired => At(prev, ref) == None && c.previousKey == None && HonoursRequired(c.kind) && ref in required
       case AddedOptional => At(prev, ref) == None && c.previousKey == None && !(HonoursRequired(c.kind) && ref in required)
  }

  predicate Mentions(changes: seq<Change>, ref: RowRef) { exists c :: c in changes && RefOf(c) == ref }

  predicate MentionsOnce(changes: seq<Change>) {
    forall i, j | 0 <= i < j < |changes| :: RefOf(changes[i]) != RefOf(changes[j])
  }

  /** Within a scope the list is truthful, complete and free of repetition. */
  ghost predicate Covers(changes: seq<Change>, prev: map<RowRef, string>, next: map<RowRef, string>, required: set<RowRef>,
                         scope: iset<RowRef>) {
    && (forall c | c in changes :: RefOf(c) in scope && Truthful(c, prev, next, required))
    && MentionsOnce(changes)
    && forall ref | ref in scope && At(prev, ref) != At(next, ref) :: Mentions(changes, ref)
  }

  ghost function KindScope(kinds: seq<RowKind>): iset<RowRef> { iset ref: RowRef | ref.kind in kinds }

  lemma EveryRefInScope(ref: RowRef)
    ensures ref in KindScope(ALL_KINDS)
  {
    match ref.kind
    case Attribute => assert ALL_KINDS[0] == ref.kind;
    case VariantAxis => assert ALL_KINDS[1] == ref.kind;
    case InputSlot => assert ALL_KINDS[2] == ref.kind;
    case CatalogSlot => assert ALL_KINDS[3] == ref.kind;
  }

  lemma ClassifiedInScope(ref: RowRef)
    ensures IsClassified(ref.kind) ==> ref in KindScope(CLASSIFIED)
  {
    match ref.kind
    case Attribute => assert CLASSIFIED[0] == ref.kind;
    case InputSlot => assert CLASSIFIED[1] == ref.kind;
    case CatalogSlot => assert CLASSIFIED[2] == ref.kind;
    case VariantAxis =>
  }

  ghost predicate IsDiff(changes: seq<Change>, prev: map<RowRef, string>, next: map<RowRef, string>, required: set<RowRef>) {
    Covers(changes, prev, next, required, KindScope(ALL_KINDS))
  }

  lemma MentionsInConcat(a: seq<Change>, b: seq<Change>, ref: RowRef)
    ensures Mentions(a + b, ref) <==> Mentions(a, ref) || Mentions(b, ref)
  {
    if Mentions(a, ref) {
      var c :| c in a && RefOf(c) == ref;
      assert c in a + b;
    }
    if Mentions(b, ref) {
      var c :| c in b && RefOf(c) == ref;
      assert c in a + b;
    }
  }

  lemma CoverBoth(a: seq<Change>, b: seq<Change>, prev: map<RowRef, string>, next: map<RowRef, string>, required: set<RowRef>,
                  scopeA: iset<RowRef>, scopeB: iset<RowRef>)
    requires Covers(a, prev, next, required, scopeA) && Covers(b, prev, next, required, scopeB) && scopeA !! scopeB
    ensures Covers(a + b, prev, next, required, scopeA + scopeB)
  {
    forall ref | ref in scopeA + scopeB && At(prev, ref) != At(next, ref) ensures Mentions(a + b, ref) {
      MentionsInConcat(a, b, ref);
    }
    forall i, j | 0 <= i < j < |a + b| ensures RefOf((a + b)[i]) != RefOf((a + b)[j]) {
      if i < |a| <= j { assert a[i] in a && b[j - |a|] in b; }
    }
  }

  lemma CoverOne(c: Change, prev: map<RowRef, string>, next: map<RowRef, string>, required: set<RowRef>)
    requires Truthful(c, prev, next, required)
    ensures Covers([c], prev, next, required, iset{RefOf(c)})
  {
    assert c in [c];
  }

  // ---------------------------------------------------------------- classify_changes

  /** The rows of one kind, as the whole snapshot's keys see them. */
  ghost predicate IsSection(keys: map<RowRef, string>, kind: RowKind, rows: map<string, SnapRow>) {
    forall id :: At(keys, RowRef(kind, id)) == if id in rows then Some(rows[id].key) else None
  }

  lemma KeyOfSnapshot(s: Snapshot, kind: RowKind, id: string)
    requires IsClassified(kind)
    ensures At(KeysOf(s), RowRef(kind, id)) == if id in ById(s.Section(kind)) then Some(ById(s.Section(kind))[id].key) else None
  {}

  lemma RequiredOfSnapshot(s: Snapshot, kind: RowKind, id: string)
    requires IsClassified(kind) && id in ById(s.Section(kind))
    ensures RowRef(kind, id) in RequiredIn(s) <==> ById(s.Section(kind))[id].required
  {}

  lemma SectionOfSnapshot(s: Snapshot, kind: RowKind)
    requires IsClassified(kind)
    ensures IsSection(KeysOf(s), kind, ById(s.Section(kind)))
    ensures forall id | id in ById(s.Section(kind)) :: RowRef(kind, id) in RequiredIn(s) <==> ById(s.Section(kind))[id].required
  {
    var keys, rows := KeysOf(s), ById(s.Section(kind));
    forall id ensures At(keys, RowRef(kind, id)) == if id in rows then Some(rows[id].key) else None { KeyOfSnapshot(s, kind, id); }
    forall id | id in rows ensures RowRef(kind, id) in RequiredIn(s) <==> rows[id].required { RequiredOfSnapshot(s, kind, id); }
  }

  ghost function RefsOf(kind: RowKind, ids: seq<string>): iset<RowRef> { iset ref: RowRef | ref.kind == kind && ref.id in ids }

  method ClassifyRow(kind: RowKind, id: string, previousRows: map<string, SnapRow>, nextRows: map<string, SnapRow>,
                     ghost prev: map<RowRef, string>, ghost next: map<RowRef, string>, ghost required: set<RowRef>)
    returns (more: seq<Change>)
    requires IsSection(prev, kind, previousRows) && IsSection(next, kind, nextRows)
    requires id in nextRows && (RowRef(kind, id) in required <==> nextRows[id].required)
    ensures Covers(more, prev, next, required, iset{RowRef(kind, id)})
  {
    var row := nextRows[id];
    more := [];
    assert At(prev, RowRef(kind, id)) == if id in previousRows then Some(previousRows[id].key) else None;
    assert At(next, RowRef(kind, id)) == Some(row.key);
    if id !in previousRows {
      var what := if HonoursRequired(kind) && row.required then AddedRequired else AddedOptional;
      more := [Change(what, kind, id, row.key, None)];
      CoverOne(more[0], prev, next, required);
    } else if previousRows[id].key != row.key {
      more := [Change(Renamed, kind, id, row.key, Some(previousRows[id].key))];
      CoverOne(more[0], prev, next, required);
    }
  }

  lemma AddOneMore(changes: seq<Change>, more: seq<Change>, kind: RowKind, order: seq<string>, id: string,
                   prev: map<RowRef, string>, next: map<RowRef, string>, required: set<RowRef>)
    requires id !in order && Covers(changes, prev, next, required, RefsOf(kind, order))
    requires Covers(more, prev, next, required, iset{RowRef(kind, id)})
    ensures Covers(changes + more, prev, next, required, RefsOf(kind, order + [id]))
  {
    CoverBoth(changes, more, prev, next, required, RefsOf(kind, order), iset{RowRef(kind, id)});
    assert RefsOf(kind, order + [id]) == RefsOf(kind, order) + iset{RowRef(kind, id)};
  }

  lemma NotYetListed<T>(xs: seq<T>, i: nat)
    requires i < |xs| && Distinct(xs)
    ensures xs[i] !in xs[..i] && xs[..i + 1] == xs[..i] + [xs[i]]
  {}

  method AddedOrRenamed(kind: RowKind, previousRows: map<string, SnapRow>, nextRows: map<string, SnapRow>, nextOrder: seq<string>,
                        ghost prev: map<RowRef, string>, ghost next: map<RowRef, string>, ghost required: set<RowRef>)
    returns (changes: seq<Change>)
    requires IsSection(prev, kind, previousRows) && IsSection(next, kind, nextRows) && Lists(nextOrder, nextRows)
    requires forall id | id in nextRows :: RowRef(kind, id) in required <==> nextRows[id].required
    ensures Covers(changes, prev, next, required, RefsOf(kind, nextOrder))
  {
    changes := [];
    for i := 0 to |nextOrder|
      invariant Covers(changes, prev, next, required, RefsOf(kind, nextOrder[..i]))
    {
      var id := nextOrder[i];
      var more := ClassifyRow(kind, id, previousRows, nextRows, prev, next, required);
      NotYetListed(nextOrder, i);
      AddOneMore(changes, more, kind, nextOrder[..i], id, prev, next, required);
      changes := changes + more;
    }
    assert nextOrder[..|nextOrder|] == nextOrder;
  }

  ghost function RetiredRefs(kind: RowKind, order: seq<string>, nextRows: map<string, SnapRow>): iset<RowRef> {
    iset ref: RowRef | ref.kind == kind && ref.id in order && ref.id !in nextRows
  }

  lemma RetireOneMore(changes: seq<Change>, more: seq<Change>, kind: RowKind, order: seq<string>, id: string,
                      previousRows: map<string, SnapRow>, nextRows: map<string, SnapRow>,
                      prev: map<RowRef, string>, next: map<RowRef, string>, required: set<RowRef>)
    requires IsSection(prev, kind, previousRows) && IsSection(next, kind, nextRows) && id in previousRows && id !in order
    requires Covers(changes, prev, next, required, RetiredRefs(kind, order, nextRows))
    requires more == if id in nextRows then [] else [Change(Retired, kind, id, previousRows[id].key, None)]
    ensures Covers(changes + more, prev, next, required, RetiredRefs(kind, order + [id], nextRows))
  {
    if id in nextRows {
      assert RetiredRefs(kind, order + [id], nextRows) == RetiredRefs(kind, order, nextRows);
      assert changes + more == changes;
    } else {
      assert At(prev, RowRef(kind, id)) == Some(previousRows[id].key) && At(next, RowRef(kind, id)) == None;
      CoverOne(more[0], prev, next, required);
      CoverBoth(changes, more, prev, next, required, RetiredRefs(kind, order, nextRows), iset{RowRef(kind, id)});
      assert RetiredRefs(kind, order + [id], nextRows) == RetiredRefs(kind, order, nextRows) + iset{RowRef(kind, id)};
    }
  }

  method RetiredRows(kind: RowKind, previousRows: map<string, SnapRow>, nextRows: map<string, SnapRow>, previousOrder: seq<string>,
                     ghost prev: map<RowRef, string>, ghost next: map<RowRef, string>, ghost required: set<RowRef>)
    returns (changes: seq<Change>)
    requires IsSection(prev, kind, previousRows) && IsSection(next, kind, nextRows) && Lists(previousOrder, previousRows)
    ensures Covers(changes, prev, next, required, RetiredRefs(kind, previousOrder, nextRows))
  {
    changes := [];
    for i := 0 to |previousOrder|
      invariant Covers(changes, prev, next, required, RetiredRefs(kind, previousOrder[..i], nextRows))
    {
      var id := previousOrder[i];
      NotYetListed(previousOrder, i);
      var more: seq<Change> := [];
      if id !in nextRows { more := [Change(Retired, kind, id, previousRows[id].key, None)]; }
      RetireOneMore(changes, more, kind, previousOrder[..i], id, previousRows, nextRows, prev, next, required);
      changes := changes + more;
    }
    assert previousOrder[..|previousOrder|] == previousOrder;
  }

  /** Additions and renames in the next snapshot's order, then retirements in the previous one's. */
  method ClassifySection(prev: Snapshot, next: Snapshot, kind: RowKind) returns (changes: seq<Change>)
    requires IsClassified(kind)
    ensures Covers(changes, KeysOf(prev), KeysOf(next), RequiredIn(next), KindScope([kind]))
  {
    var previousRows, previousOrder := BuildDict(prev.Section(kind));
    var nextRows, nextOrder := BuildDict(next.Section(kind));
    SectionOfSnapshot(prev, kind);
    SectionOfSnapshot(next, kind);
    ghost var p, n, required := KeysOf(prev), KeysOf(next), RequiredIn(next);
    changes := AddedOrRenamed(kind, previousRows, nextRows, nextOrder, p, n, required);
    var retired := RetiredRows(kind, previousRows, nextRows, previousOrder, p, n, required);
    SectionCovered(changes, retired, kind, previousRows, nextRows, previousOrder, nextOrder, p, n, required);
    changes := changes + retired;
  }

  lemma SectionCovered(added: seq<Change>, retired: seq<Change>, kind: RowKind, previousRows: map<string, SnapRow>,
                       nextRows: map<string, SnapRow>, previousOrder: seq<string>, nextOrder: seq<string>,
                       prev: map<RowRef, string>, next: map<RowRef, string>, required: set<RowRef>)
    requires IsSection(prev, kind, previousRows) && IsSection(next, kind, nextRows)
    requires Lists(previousOrder, previousRows) && Lists(nextOrder, nextRows)
    requires Covers(added, prev, next, required, RefsOf(kind, nextOrder))
    requires Covers(retired, prev, next, required, RetiredRefs(kind, previousOrder, nextRows))
    ensures Covers(added + retired, prev, next, required, KindScope([kind]))
  {
    var scope := RefsOf(kind, nextOrder) + RetiredRefs(kind, previousOrder, nextRows);
    CoverBoth(added, retired, prev, next, required, RefsOf(kind, nextOrder), RetiredRefs(kind, previousOrder, nextRows));
    forall ref | ref in KindScope([kind]) && At(prev, ref) != At(next, ref) ensures ref in scope {
      assert At(prev, RowRef(kind, ref.id)) == if ref.id in previousRows then Some(previousRows[ref.id].key) else None;
      assert At(next, RowRef(kind, ref.id)) == if ref.id in nextRows then Some(nextRows[ref.id].key) else None;
    }
  }

  // ---------------------------------------------------------------- in terms of the snapshots

  /** A change, read off the rows of the two snapshots: only attributes and input slots are added as required. */
  predicate TellsTruth(c: Change, prev: Snapshot, next: Snapshot) {
    c.kind != VariantAxis && RowTells(c, ById(prev.Section(c.kind)), ById(next.Section(c.kind)))
  }

  predicate RowTells(c: Change, p: map<string, SnapRow>, n: map<string, SnapRow>) {
    match c.what
    case Retired => c.id in p && c.id !in n && c.key == p[c.id].key && c.previousKey == None
    case Renamed => c.id in p && c.id in n && c.key == n[c.id].key != p[c.id].key && c.previousKey == Some(p[c.id].key)
    case AddedRequired => && c.id !in p && c.id in n && c.key == n[c.id].key && c.previousKey == None
                          && (c.kind == Attribute || c.kind == InputSlot) && n[c.id].required
    case AddedOptional => && c.id !in p && c.id in n && c.key == n[c.id].key && c.previousKey == None
                          && !((c.kind == Attribute || c.kind == InputSlot) && n[c.id].required)
  }

  /** A row of a classified kind that is in one snapshot only, or in both under different keys. */
  predicate Differs(kind: RowKind, id: string, prev: Snapshot, next: Snapshot) {
    kind != VariantAxis && KeyOfRow(ById(prev.Section(kind)), id) != KeyOfRow(ById(next.Section(kind)), id)
  }

  function KeyOfRow(rows: map<string, SnapRow>, id: string): Option<string> { if id in rows then Some(rows[id].key) else None }

  lemma KeyRead(s: Snapshot, kind: RowKind, id: string)
    ensures At(KeysOf(s), RowRef(kind, id)) == if kind != VariantAxis then KeyOfRow(ById(s.Section(kind)), id) else None
  {
    if kind != VariantAxis { KeyOfSnapshot(s, kind, id); } else { AxesAreNotRead(s, id); }
  }

  lemma AxesAreNotRead(s: Snapshot, id: string)
    ensures RowRef(VariantAxis, id) !in KeysOf(s)
  {}

  lemma EmptySection(kind: RowKind)
    ensures EMPTY.Section(kind) == [] && ById([]) == map[]
  {}

  lemma NoKeys()
    ensures KeysOf(EMPTY) == map[]
  {
    forall ref: RowRef ensures ref !in KeysOf(EMPTY) {
      EmptySection(ref.kind);
      KeyRead(EMPTY, ref.kind, ref.id);
    }
  }

  lemma TruthfulMeans(c: Change, prev: Snapshot, next: Snapshot)
    requires Truthful(c, KeysOf(prev), KeysOf(next), RequiredIn(next))
    ensures TellsTruth(c, prev, next)
  {
    KeyRead(prev, c.kind, c.id);
    KeyRead(next, c.kind, c.id);
    if c.kind != VariantAxis {
      if c.id in ById(next.Section(c.kind)) { RequiredOfSnapshot(next, c.kind, c.id); }
      TruthfulRow(c, KeysOf(prev), KeysOf(next), RequiredIn(next), ById(prev.Section(c.kind)), ById(next.Section(c.kind)));
    }
  }

  lemma TruthfulRow(c: Change, prev: map<RowRef, string>, next: map<RowRef, string>, required: set<RowRef>,
                    p: map<string, SnapRow>, n: map<string, SnapRow>)
    requires c.kind != VariantAxis && Truthful(c, prev, next, required)
    requires At(prev, RefOf(c)) == KeyOfRow(p, c.id) && At(next, RefOf(c)) == KeyOfRow(n, c.id)
    requires c.id in n ==> (RefOf(c) in required <==> n[c.id].required)
    ensures RowTells(c, p, n)
  {}

  /** What a diff says of the two snapshots: nothing but the truth, and every difference exactly once. */
  lemma DiffMeans(changes: seq<Change>, prev: Snapshot, next: Snapshot)
    requires IsDiff(changes, KeysOf(prev), KeysOf(next), RequiredIn(next))
    ensures forall c | c in changes :: TellsTruth(c, prev, next)
    ensures forall kind: RowKind, id: string | Differs(kind, id, prev, next) :: Mentions(changes, RowRef(kind, id))
    ensures MentionsOnce(changes)
  {
    forall c | c in changes ensures TellsTruth(c, prev, next) { TruthfulMeans(c, prev, next); }
    forall kind: RowKind, id: string | Differs(kind, id, prev, next) ensures Mentions(changes, RowRef(kind, id)) {
      KeyRead(prev, kind, id);
      KeyRead(next, kind, id);
      EveryRefInScope(RowRef(kind, id));
    }
  }

  /** A rename, read off the two snapshots. */
  predicate RowRenamed(kind: RowKind, id: string, prev: Snapshot, next: Snapshot) {
    var p, n := ById(prev.Section(kind)), ById(next.Section(kind));
    kind != VariantAxis && id in p && id in n && p[id].key != n[id].key
  }

  lemma KeyChangedMeans(prev: Snapshot, next: Snapshot)
    ensures KeyChanged(KeysOf(prev), KeysOf(next)) <==> exists kind: RowKind, id: string :: RowRenamed(kind, id, prev, next)
  {
    if KeyChanged(KeysOf(prev), KeysOf(next)) {
      var ref :| ref in KeysOf(prev) && ref in KeysOf(next) && KeysOf(prev)[ref] != KeysOf(next)[ref];
      KeyRead(prev, ref.kind, ref.id);
      KeyRead(next, ref.kind, ref.id);
      assert RowRenamed(ref.kind, ref.id, prev, next);
    }
    if kind: RowKind, id: string :| RowRenamed(kind, id, prev, next) {
      KeyRead(prev, kind, id);
      KeyRead(next, kind, id);
      assert RowRef(kind, id) in KeysOf(prev) && RowRef(kind, id) in KeysOf(next);
    }
  }

  /** `classify_changes`: a first publish compares against nothing. */
  method ClassifyChanges(previous: Option<Snapshot>, next: Snapshot) returns (changes: seq<Change>)
    ensures IsDiff(changes, KeysOf(if previous.Some? then previous.value else EMPTY), KeysOf(next), RequiredIn(next))
    ensures var prev := if previous.Some? then previous.value else Snapshot([], [], [], []);
            && (forall c | c in changes :: TellsTruth(c, prev, next)) && MentionsOnce(changes)
            && forall kind: RowKind, id: string | Differs(kind, id, prev, next) :: Mentions(changes, RowRef(kind, id))
  {
    var prev := if previous.Some? then previous.value else EMPTY;
    ghost var p, n, required := KeysOf(prev), KeysOf(next), RequiredIn(next);
    changes := [];
    for i := 0 to |CLASSIFIED|
      invariant Covers(changes, p, n, required, KindScope(CLASSIFIED[..i]))
    {
      var section := ClassifySection(prev, next, CLASSIFIED[i]);
      CoverBoth(changes, section, p, n, required, KindScope(CLASSIFIED[..i]), KindScope([CLASSIFIED[i]]));
      assert KindScope(CLASSIFIED[..i + 1]) == KindScope(CLASSIFIED[..i]) + KindScope([CLASSIFIED[i]]);
      changes := changes + section;
    }
    assert CLASSIFIED[..|CLASSIFIED|] == CLASSIFIED;
    forall ref: RowRef | ref in KindScope(ALL_KINDS) && At(p, ref) != At(n, ref) ensures ref in KindScope(CLASSIFIED) {
      ClassifiedInScope(ref);
    }
    DiffMeans(changes, prev, next);
  }

  // ---------------------------------------------------------------- replaying a change list

  function ReplayOne(m: map<RowRef, string>, c: Change): map<RowRef, string> {
    if c.what == Retired then m - {RefOf(c)} else m[RefOf(c) := c.key]
  }

  function Replay(changes: seq<Change>, m: map<RowRef, string>): map<RowRef, string> {
    if changes == [] then m else ReplayOne(Replay(changes[..|changes| - 1], m), changes[|changes| - 1])
  }

  lemma {:induction false} ReplayReaches(changes: seq<Change>, prev: map<RowRef, string>, next: map<RowRef, string>,
                                         required: set<RowRef>, ref: RowRef)
    requires forall c | c in changes :: Truthful(c, prev, next, required)
    ensures At(Replay(changes, prev), ref) == if Mentions(changes, ref) then At(next, ref) else At(prev, ref)
  {
    if changes != [] {
      var before, c := changes[..|changes| - 1], changes[|changes| - 1];
      assert changes == before + [c];
      ReplayReaches(before, prev, next, required, ref);
      MentionsInConcat(before, [c], ref);
      assert c in changes;
      assert Mentions([c], ref) <==> RefOf(c) == ref by { assert c in [c]; }
    }
  }

  /** The change list is a faithful diff: replayed on the previous snapshot's keys it gives the next one's. */
  lemma DiffReplays(changes: seq<Change>, prev: map<RowRef, string>, next: map<RowRef, string>, required: set<RowRef>)
    requires IsDiff(changes, prev, next, required)
    ensures Replay(changes, prev) == next
  {
    var replayed := Replay(changes, prev);
    forall ref: RowRef ensures At(replayed, ref) == At(next, ref) {
      ReplayReaches(changes, prev, next, required, ref);
      EveryRefInScope(ref);
    }
    SameKeys(replayed, next);
  }

  lemma SameKeys(a: map<RowRef, string>, b: map<RowRef, string>)
    requires forall ref: RowRef :: At(a, ref) == At(b, ref)
    ensures a == b
  {
    forall ref: RowRef ensures (ref in a <==> ref in b) && (ref in a ==> a[ref] == b[ref]) {
      assert At(a, ref) == At(b, ref);
    }
  }

  /** No news exactly when the two snapshots agree on every classified row's key. */
  lemma EmptyDiffIffSameKeys(changes: seq<Change>, prev: map<RowRef, string>, next: map<RowRef, string>, required: set<RowRef>)
    requires IsDiff(changes, prev, next, required)
    ensures changes == [] <==> prev == next
  {
    if changes == [] {
      DiffReplays(changes, prev, next, required);
    } else {
      assert changes[0] in changes;
    }
  }

  ghost predicate KeyChanged(prev: map<RowRef, string>, next: map<RowRef, string>) {
    exists ref :: ref in prev && ref in next && prev[ref] != next[ref]
  }

  /** A rename is reported exactly when some row is in both snapshots under different keys. */
  lemma RenamedIffKeyChanged(changes: seq<Change>, prev: map<RowRef, string>, next: map<RowRef, string>, required: set<RowRef>)
    requires IsDiff(changes, prev, next, required)
    ensures (exists c :: c in changes && c.what == Renamed) <==> KeyChanged(prev, next)
  {
    if KeyChanged(prev, next) {
      var ref :| ref in prev && ref in next && prev[ref] != next[ref];
      EveryRefInScope(ref);
      assert At(prev, ref) != At(next, ref);
      var c :| c in changes && RefOf(c) == ref;
      assert c.what == Renamed;
    }
    if c :| c in changes && c.what == Renamed { assert RefOf(c) in prev; }
  }
}
