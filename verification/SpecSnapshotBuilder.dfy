/** Building a category's snapshot from the definition rows of its ancestor chain: inheritance picks one row per
    key, and only the picked rows are listed. */
module SpecSnapshotBuilder {
  import opened Base
  import opened SpecChanges
  import opened SpecInheritance
  import Categories = CategoryTree

  type CatId = Categories.CatId

  datatype Def = Def(id: string, required: bool)

  /** One of the category's own definition rows. Ids are primary keys; keys need not be unique. */
  datatype OwnRow = OwnRow(ref: RowRef, key: string, required: bool, introduced: Option<nat>)

  /** The ancestors and the definition rows fetched for them. */
  datatype Above = Above(chain: seq<CatId>, attributes: seq<Row<Def>>, axes: seq<Row<Def>>, inputSlots: seq<Row<Def>>, catalogSlots: seq<Row<Def>>) {
    function Section(kind: RowKind): seq<Row<Def>> {
      match kind
      case Attribute => attributes
      case VariantAxis => axes
      case InputSlot => inputSlots
      case CatalogSlot => catalogSlots
    }
  }

  /** The own rows of one kind, in the order their positions list them. */
  function OwnSection(own: seq<OwnRow>, kind: RowKind, self: CatId): (rows: seq<Row<Def>>)
    ensures forall row | row in rows :: row.owner == self
  {
    if own == [] then []
    else
      var last := own[|own| - 1];
      OwnSection(own[..|own| - 1], kind, self)
      + (if last.ref.kind == kind then [Row(self, last.key, Def(last.ref.id, last.required))] else [])
  }

  /** `list_for_categories` over the chain, this category at its leaf. Rows of different categories may come
      interleaved in any way: inheritance does not see it. */
  function Fetched(above: Above, own: seq<OwnRow>, kind: RowKind, self: CatId): seq<Row<Def>> {
    above.Section(kind) + OwnSection(own, kind, self)
  }

  function Serialized(row: Row<Def>): SnapRow { SnapRow(row.value.id, row.key, row.value.required) }

  /** A section row shows a definition's id, key and whether it is required. */
  predicate Shows(x: SnapRow, row: Row<Def>) { x.id == row.value.id && x.key == row.key && x.required == row.value.required }

  /** A section lists exactly the rows that win their key. */
  ghost predicate ListsWinners(section: seq<SnapRow>, chain: seq<CatId>, rows: seq<Row<Def>>) {
    && (forall x | x in section :: LeafFirst(chain, rows, x.key).Some? && Shows(x, LeafFirst(chain, rows, x.key).value))
    && (forall key | LeafFirst(chain, rows, key).Some? :: ShownIn(section, LeafFirst(chain, rows, key).value))
  }

  predicate ShownIn(section: seq<SnapRow>, row: Row<Def>) { exists x :: x in section && Shows(x, row) }

  ghost predicate BuiltFrom(snapshot: Snapshot, above: Above, own: seq<OwnRow>, self: CatId) {
    forall kind: RowKind :: ListsWinners(snapshot.Section(kind), above.chain + [self], Fetched(above, own, kind, self))
  }

  // ---------------------------------------------------------------- the builder

  /** `list(resolved.values())`, in some order. */
  method ListValues(view: map<string, Row<Def>>) returns (section: seq<SnapRow>)
    ensures forall x :: x in section <==> exists key :: key in view && x == Serialized(view[key])
  {
    section := [];
    var left := view.Keys;
    while left != {}
      invariant left <= view.Keys
      invariant forall x :: x in section <==> exists key :: key in view && key !in left && x == Serialized(view[key])
      decreases left
    {
      var key :| key in left;
      section := section + [Serialized(view[key])];
      left := left - {key};
    }
  }

  lemma LookupKeepsKey<T>(rows: seq<Row<T>>, key: string)
    ensures LastWith(rows, key).Some? ==> LastWith(rows, key).value.key == key && LastWith(rows, key).value in rows
  {}

  lemma {:induction false} SearchKeepsKey<T>(chain: seq<CatId>, rows: seq<Row<T>>, key: string)
    ensures LeafFirst(chain, rows, key).Some? ==>
              LeafFirst(chain, rows, key).value.key == key
              && exists c :: c in chain && LeafFirst(chain, rows, key).value in Owned(rows, c)
  {
    if chain != [] {
      var c := chain[|chain| - 1];
      LookupKeepsKey(Owned(rows, c), key);
      assert c in chain;
      SearchKeepsKey(chain[..|chain| - 1], rows, key);
    }
  }

  method BuildSection(chain: seq<CatId>, rows: seq<Row<Def>>) returns (section: seq<SnapRow>)
    ensures ListsWinners(section, chain, rows)
  {
    var view := ResolveInherited(chain, rows);
    section := ListValues(view);
    forall x | x in section
      ensures LeafFirst(chain, rows, x.key).Some? && Shows(x, LeafFirst(chain, rows, x.key).value)
    {
      var key :| key in view && x == Serialized(view[key]);
      assert (if key in view then Some(view[key]) else None) == LeafFirst(chain, rows, key);
      SearchKeepsKey(chain, rows, key);
    }
    forall key | LeafFirst(chain, rows, key).Some? ensures ShownIn(section, LeafFirst(chain, rows, key).value) {
      assert (if key in view then Some(view[key]) else None) == LeafFirst(chain, rows, key);
      assert Serialized(view[key]) in section && Shows(Serialized(view[key]), view[key]);
    }
  }

  /** `SpecSnapshotBuilder.build`: the four kinds, one after the other. */
  method Build(above: Above, own: seq<OwnRow>, self: CatId) returns (snapshot: Snapshot)
    ensures BuiltFrom(snapshot, above, own, self)
  {
    var chain := above.chain + [self];
    var attributes := BuildSection(chain, Fetched(above, own, Attribute, self));
    var axes := BuildSection(chain, Fetched(above, own, VariantAxis, self));
    var inputSlots := BuildSection(chain, Fetched(above, own, InputSlot, self));
    var catalogSlots := BuildSection(chain, Fetched(above, own, CatalogSlot, self));
    snapshot := Snapshot(attributes, axes, inputSlots, catalogSlots);
    forall kind: RowKind ensures ListsWinners(snapshot.Section(kind), chain, Fetched(above, own, kind, self)) {
      match kind
      case Attribute =>
      case VariantAxis =>
      case InputSlot =>
      case CatalogSlot =>
    }
  }

  // ---------------------------------------------------------------- which own rows the snapshot holds

  predicate DistinctRefs(own: seq<OwnRow>) { forall i, j | 0 <= i < j < |own| :: own[i].ref != own[j].ref }

  /** Another own row of the same kind and key comes later. */
  predicate Shadowed(own: seq<OwnRow>, i: nat)
    requires i < |own|
  {
    exists j :: i < j < |own| && own[j].ref.kind == own[i].ref.kind && own[j].key == own[i].key
  }

  /** The rows fetched for the ancestors are theirs: of other categories, and other rows than the own ones. */
  ghost predicate Foreign(above: Above, own: seq<OwnRow>, self: CatId) {
    && self !in above.chain
    && forall kind: RowKind, row | row in above.Section(kind) ::
         row.owner != self && forall i | 0 <= i < |own| :: own[i].ref != RowRef(kind, row.value.id)
  }

  predicate HasRow(s: Snapshot, ref: RowRef) { ref.id in ById(s.Section(ref.kind)) }

  lemma {:induction false} OwnedConcat<T>(a: seq<Row<T>>, b: seq<Row<T>>, c: CatId)
    ensures Owned(a + b, c) == Owned(a, c) + Owned(b, c)
  {
    if b == [] {
      assert a + b == a;
    } else {
      assert (a + b)[..|a + b| - 1] == a + b[..|b| - 1];
      OwnedConcat(a, b[..|b| - 1], c);
    }
  }

  lemma {:induction false} OwnedAll<T>(rows: seq<Row<T>>, c: CatId)
    requires forall row | row in rows :: row.owner == c
    ensures Owned(rows, c) == rows
  {
    if rows != [] {
      var before, last := rows[..|rows| - 1], rows[|rows| - 1];
      assert rows == before + [last];
      assert last in rows;
      OwnedAll(before, c);
    }
  }

  lemma {:induction false} OwnedNone<T>(rows: seq<Row<T>>, c: CatId)
    requires forall row | row in rows :: row.owner != c
    ensures Owned(rows, c) == []
  {
    if rows != [] {
      assert rows[|rows| - 1] in rows;
      OwnedNone(rows[..|rows| - 1], c);
    }
  }

  /** At the leaf the category sees its own rows of the kind and nothing else. */
  lemma LeafOwnsOwnSection(above: Above, own: seq<OwnRow>, kind: RowKind, self: CatId)
    requires Foreign(above, own, self)
    ensures Owned(Fetched(above, own, kind, self), self) == OwnSection(own, kind, self)
  {
    OwnedConcat(above.Section(kind), OwnSection(own, kind, self), self);
    OwnedNone(above.Section(kind), self);
    OwnedAll(OwnSection(own, kind, self), self);
  }

  predicate IsOwn(row: Row<Def>, x: OwnRow) { row.key == x.key && row.value.id == x.ref.id && row.value.required == x.required }

  ghost predicate FindsLast(found: Option<Row<Def>>, own: seq<OwnRow>, kind: RowKind, key: string) {
    match found
    case None => forall x | x in own :: x.ref.kind != kind || x.key != key
    case Some(row) => exists i: nat :: IsLastOwn(own, i, kind, key) && IsOwn(row, own[i])
  }

  /** The last own row of a kind and key, read off the list of own rows. */
  lemma {:induction false} LastOwnRow(own: seq<OwnRow>, kind: RowKind, self: CatId, key: string)
    ensures FindsLast(LastWith(OwnSection(own, kind, self), key), own, kind, key)
  {
    if own != [] {
      var before, last := own[..|own| - 1], own[|own| - 1];
      var rows, row := OwnSection(before, kind, self), Row(self, last.key, Def(last.ref.id, last.required));
      assert own == before + [last];
      LastOwnRow(before, kind, self, key);
      OneMoreOwn(LastWith(rows, key), before, last, row, kind, key);
      if last.ref.kind == kind { LastWithSnoc(rows, row, key); }
      assert OwnSection(own, kind, self) == if last.ref.kind == kind then rows + [row] else rows;
    }
  }

  lemma OneMoreOwn(found: Option<Row<Def>>, before: seq<OwnRow>, last: OwnRow, row: Row<Def>, kind: RowKind, key: string)
    requires FindsLast(found, before, kind, key) && IsOwn(row, last)
    ensures FindsLast(if last.ref.kind == kind && last.key == key then Some(row) else found, before + [last], kind, key)
  {
    var own := before + [last];
    if last.ref.kind == kind && last.key == key {
      assert IsLastOwn(own, |before|, kind, key) && IsOwn(row, own[|before|]);
    } else if found.Some? {
      var i: nat :| IsLastOwn(before, i, kind, key) && IsOwn(found.value, before[i]);
      assert IsLastOwn(own, i, kind, key) && IsOwn(found.value, own[i]);
    }
  }

  predicate IsLastOwn(own: seq<OwnRow>, i: nat, kind: RowKind, key: string) {
    i < |own| && own[i].ref.kind == kind && own[i].key == key && !Shadowed(own, i)
  }

  lemma LastWithSnoc<T>(rows: seq<Row<T>>, row: Row<T>, key: string)
    ensures LastWith(rows + [row], key) == if row.key == key then Some(row) else LastWith(rows, key)
  {
    assert (rows + [row])[..|rows|] == rows;
  }

  predicate ShowsOwn(x: SnapRow, own: OwnRow) { x.id == own.ref.id && x.key == own.key && x.required == own.required }

  /** An unshadowed own row wins its key against everything above, and is listed as it is. */
  lemma UnshadowedIsListed(snapshot: Snapshot, above: Above, own: seq<OwnRow>, self: CatId, i: nat)
    requires BuiltFrom(snapshot, above, own, self) && Foreign(above, own, self) && i < |own| && !Shadowed(own, i)
    ensures HasRow(snapshot, own[i].ref)
    ensures exists x :: x in snapshot.Section(own[i].ref.kind) && ShowsOwn(x, own[i])
  {
    var kind, key := own[i].ref.kind, own[i].key;
    var section := snapshot.Section(kind);
    var winner := OwnWinner(above, own, self, i);
    assert ListsWinners(section, above.chain + [self], Fetched(above, own, kind, self));
    assert ShownIn(section, winner);
    var x :| x in section && Shows(x, winner);
    ByIdListsRow(section, x);
    assert ShowsOwn(x, own[i]);
  }

  lemma OwnWinner(above: Above, own: seq<OwnRow>, self: CatId, i: nat) returns (winner: Row<Def>)
    requires Foreign(above, own, self) && i < |own| && !Shadowed(own, i)
    ensures LeafFirst(above.chain + [self], Fetched(above, own, own[i].ref.kind, self), own[i].key) == Some(winner)
    ensures IsOwn(winner, own[i])
  {
    var kind, key := own[i].ref.kind, own[i].key;
    LeafOwnsOwnSection(above, own, kind, self);
    LastOwnRow(own, kind, self, key);
    assert own[i] in own;
    assert LastWith(OwnSection(own, kind, self), key).Some?;
    winner := LastWith(OwnSection(own, kind, self), key).value;
    var j: nat :| IsLastOwn(own, j, kind, key) && IsOwn(winner, own[j]);
    OnlyOneLast(own, i, j, kind, key);
  }

  lemma OnlyOneLast(own: seq<OwnRow>, i: nat, j: nat, kind: RowKind, key: string)
    requires IsLastOwn(own, i, kind, key) && IsLastOwn(own, j, kind, key)
    ensures i == j
  {}

  /** A listed own row is the last of its key. */
  lemma ListedIsUnshadowed(snapshot: Snapshot, above: Above, own: seq<OwnRow>, self: CatId, i: nat)
    requires BuiltFrom(snapshot, above, own, self) && Foreign(above, own, self) && DistinctRefs(own)
    requires i < |own| && HasRow(snapshot, own[i].ref)
    ensures !Shadowed(own, i)
  {
    var ref := own[i].ref;
    var chain, rows := above.chain + [self], Fetched(above, own, ref.kind, self);
    assert ListsWinners(snapshot.Section(ref.kind), chain, rows);
    ByIdHoldsRows(snapshot.Section(ref.kind), ref.id);
    var x := ById(snapshot.Section(ref.kind))[ref.id];
    var own' := OwnSection(own, ref.kind, self);
    LeafOwnsOwnSection(above, own, ref.kind, self);
    var mine := LastWith(own', x.key);
    LastOwnRow(own, ref.kind, self, x.key);
    if mine.None? {
      WinnerComesFromAbove(above, own, ref.kind, self, x.key);
      assert false;
    }
    assert LeafFirst(chain, rows, x.key) == mine;
    var j: nat :| IsLastOwn(own, j, ref.kind, x.key) && IsOwn(mine.value, own[j]);
    assert own[j].ref == ref;
    assert i == j;
  }

  /** Without an own row of the key, the winner is a row of an ancestor, and so no own row. */
  lemma WinnerComesFromAbove(above: Above, own: seq<OwnRow>, kind: RowKind, self: CatId, key: string)
    requires Foreign(above, own, self) && LastWith(OwnSection(own, kind, self), key).None?
    ensures var winner := LeafFirst(above.chain + [self], Fetched(above, own, kind, self), key);
            winner.Some? ==> forall i | 0 <= i < |own| :: own[i].ref != RowRef(kind, winner.value.value.id)
  {
    var rows := Fetched(above, own, kind, self);
    LeafOwnsOwnSection(above, own, kind, self);
    assert (above.chain + [self])[..|above.chain|] == above.chain;
    SearchKeepsKey(above.chain, rows, key);
    var winner := LeafFirst(above.chain, rows, key);
    if winner.Some? {
      var c :| c in above.chain && winner.value in Owned(rows, c);
      OwnedAreRows(rows, c, winner.value);
      assert winner.value in above.Section(kind);
    }
  }

  lemma {:induction false} OwnedAreRows<T>(rows: seq<Row<T>>, c: CatId, row: Row<T>)
    requires row in Owned(rows, c)
    ensures row in rows && row.owner == c
  {
    if rows != [] {
      var last := rows[|rows| - 1];
      if row in Owned(rows[..|rows| - 1], c) { OwnedAreRows(rows[..|rows| - 1], c, row); }
      assert rows == rows[..|rows| - 1] + [last];
    }
  }

  predicate OwnsKey(own: seq<OwnRow>, kind: RowKind, key: string) { exists x :: x in own && x.ref.kind == kind && x.key == key }

  lemma {:induction false} OwnSectionHasNone(own: seq<OwnRow>, kind: RowKind, self: CatId, c: CatId, key: string)
    requires c != self || !OwnsKey(own, kind, key)
    ensures HasNone(OwnSection(own, kind, self), c, key)
  {
    if own != [] {
      var before, last := own[..|own| - 1], own[|own| - 1];
      assert own == before + [last];
      assert OwnsKey(before, kind, key) ==> OwnsKey(own, kind, key);
      OwnSectionHasNone(before, kind, self, c, key);
      assert last in own;
    }
  }

  lemma HasNoneConcat(a: seq<Row<Def>>, b: seq<Row<Def>>, c: CatId, key: string)
    requires HasNone(a, c, key) && HasNone(b, c, key)
    ensures HasNone(a + b, c, key)
  {}

  lemma LastOfConcat(a: seq<Row<Def>>, b: seq<Row<Def>>, n: nat, c: CatId, key: string)
    requires IsLastOf(a, n, c, key) && HasNone(b, c, key)
    ensures IsLastOf(a + b, n, c, key) && (a + b)[n] == a[n]
  {}

  /** A key that the category does not define itself is listed as the nearest ancestor that defines it has it. */
  lemma AncestorRowIsListed(snapshot: Snapshot, above: Above, own: seq<OwnRow>, self: CatId, kind: RowKind, key: string, i: nat, n: nat)
    requires BuiltFrom(snapshot, above, own, self) && Foreign(above, own, self) && !OwnsKey(own, kind, key)
    requires i < |above.chain| && IsLastOf(above.Section(kind), n, above.chain[i], key)
    requires forall j | i < j < |above.chain| :: HasNone(above.Section(kind), above.chain[j], key)
    ensures exists x :: x in snapshot.Section(kind) && Shows(x, above.Section(kind)[n])
  {
    var rows, mine, chain := above.Section(kind), OwnSection(own, kind, self), above.chain + [self];
    forall j | i < j < |chain| ensures HasNone(rows + mine, chain[j], key) {
      OwnSectionHasNone(own, kind, self, chain[j], key);
      if j == |above.chain| { assert HasNone(rows, self, key); }
      HasNoneConcat(rows, mine, chain[j], key);
    }
    assert chain[i] == above.chain[i] != self;
    OwnSectionHasNone(own, kind, self, chain[i], key);
    LastOfConcat(rows, mine, n, chain[i], key);
    SearchFinds(chain, Fetched(above, own, kind, self), key, i, n);
    assert ListsWinners(snapshot.Section(kind), chain, Fetched(above, own, kind, self));
    assert ShownIn(snapshot.Section(kind), rows[n]);
  }

  /** The snapshot holds an own row, as it is, exactly when no later own row of its kind has its key: two own rows of
      one key are never both inherited from, and the later one wins. */
  lemma OwnRowListedIff(snapshot: Snapshot, above: Above, own: seq<OwnRow>, self: CatId, i: nat)
    requires BuiltFrom(snapshot, above, own, self) && Foreign(above, own, self) && DistinctRefs(own) && i < |own|
    ensures HasRow(snapshot, own[i].ref) <==> !Shadowed(own, i)
    ensures !Shadowed(own, i) ==> exists x :: x in snapshot.Section(own[i].ref.kind) && ShowsOwn(x, own[i])
  {
    if HasRow(snapshot, own[i].ref) { ListedIsUnshadowed(snapshot, above, own, self, i); }
    if !Shadowed(own, i) { UnshadowedIsListed(snapshot, above, own, self, i); }
  }

  /** Without ancestors, the last row of each key is listed. */
  lemma OwnRowsAlone(own: seq<OwnRow>, kind: RowKind, self: CatId, section: seq<SnapRow>)
    requires forall key :: match LastWith(OwnSection(own, kind, self), key)
                           case None => forall x | x in section :: x.key != key
                           case Some(row) => Serialized(row) in section && forall x | x in section && x.key == key :: x == Serialized(row)
    ensures ListsWinners(section, [] + [self], Fetched(Above([], [], [], [], []), own, kind, self))
  {
    var rows, above := Fetched(Above([], [], [], [], []), own, kind, self), Above([], [], [], [], []);
    assert Foreign(above, own, self);
    LeafOwnsOwnSection(above, own, kind, self);
    assert [] + [self] == [self] && [self][..0] == [];
    assert forall key :: LeafFirst([self], rows, key) == LastWith(OwnSection(own, kind, self), key);
    forall key | LeafFirst([self], rows, key).Some? ensures ShownIn(section, LeafFirst([self], rows, key).value) {
      assert Shows(Serialized(LeafFirst([self], rows, key).value), LeafFirst([self], rows, key).value);
    }
  }
}
