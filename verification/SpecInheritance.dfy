/** Inheritance down the category tree: definition rows override by key, settings by scope. Both are computed
    by writing over earlier answers on the way from the root to the leaf, and both are here tied to a search
    that starts at the leaf and stops at the first answer. */
module SpecInheritance {
  import opened Base
  import opened CategoryTree

  datatype Row<T> = Row(owner: CatId, key: string, value: T)

  // ---------------------------------------------------------------- the reference: leaf first

  /** The category's own rows, in the order they were fetched. */
  function Owned<T>(rows: seq<Row<T>>, c: CatId): (owned: seq<Row<T>>)
    ensures forall row | row in owned :: row.owner == c
  {
    if rows == [] then []
    else
      var last := rows[|rows| - 1];
      Owned(rows[..|rows| - 1], c) + (if last.owner == c then [last] else [])
  }

  function LastWith<T>(rows: seq<Row<T>>, key: string): Option<Row<T>> {
    if rows == [] then None
    else if rows[|rows| - 1].key == key then Some(rows[|rows| - 1])
    else LastWith(rows[..|rows| - 1], key)
  }

  /** Ask the leaf first and go up only when it has no row of that key. */
  function LeafFirst<T>(chain: seq<CatId>, rows: seq<Row<T>>, key: string): Option<Row<T>> {
    if chain == [] then None
    else
      var own := LastWith(Owned(rows, chain[|chain| - 1]), key);
      if own.Some? then own else LeafFirst(chain[..|chain| - 1], rows, key)
  }

  /** A dictionary that answers every key as the search does. */
  ghost predicate Answers<T>(view: map<string, Row<T>>, chain: seq<CatId>, rows: seq<Row<T>>) {
    forall key :: (if key in view then Some(view[key]) else None) == LeafFirst(chain, rows, key)
  }

  // ---------------------------------------------------------------- resolve_inherited

  ghost predicate Groups<T>(byCategory: map<CatId, seq<Row<T>>>, rows: seq<Row<T>>) {
    forall c: CatId :: (if c in byCategory then byCategory[c] else []) == Owned(rows, c)
  }

  lemma GroupOneMore<T>(byCategory: map<CatId, seq<Row<T>>>, rows: seq<Row<T>>, i: nat)
    requires i < |rows| && Groups(byCategory, rows[..i])
    ensures var c := rows[i].owner;
            Groups(byCategory[c := (if c in byCategory then byCategory[c] else []) + [rows[i]]], rows[..i + 1])
  {
    assert rows[..i + 1][..i] == rows[..i];
    var c := rows[i].owner;
    var grown := byCategory[c := (if c in byCategory then byCategory[c] else []) + [rows[i]]];
    forall d: CatId ensures (if d in grown then grown[d] else []) == Owned(rows[..i + 1], d) {
      assert (if d in byCategory then byCategory[d] else []) == Owned(rows[..i], d);
    }
  }

  method GroupByCategory<T>(rows: seq<Row<T>>) returns (byCategory: map<CatId, seq<Row<T>>>)
    ensures Groups(byCategory, rows)
  {
    byCategory := map[];
    for i := 0 to |rows|
      invariant Groups(byCategory, rows[..i])
    {
      GroupOneMore(byCategory, rows, i);
      var c := rows[i].owner;
      byCategory := byCategory[c := (if c in byCategory then byCategory[c] else []) + [rows[i]]];
    }
    assert rows[..|rows|] == rows;
  }

  /** Later rows of the same key replace earlier ones, and all of them replace what was inherited. */
  method Override<T>(inherited: map<string, Row<T>>, own: seq<Row<T>>) returns (resolved: map<string, Row<T>>)
    ensures forall key :: (if key in resolved then Some(resolved[key]) else None)
              == if LastWith(own, key).Some? then LastWith(own, key)
                 else if key in inherited then Some(inherited[key]) else None
  {
    resolved := inherited;
    for j := 0 to |own|
      invariant forall key :: (if key in resolved then Some(resolved[key]) else None)
                  == if LastWith(own[..j], key).Some? then LastWith(own[..j], key)
                     else if key in inherited then Some(inherited[key]) else None
    {
      assert own[..j + 1][..j] == own[..j];
      resolved := resolved[own[j].key := own[j]];
    }
    assert own[..|own|] == own;
  }

  method ResolveInherited<T>(chain: seq<CatId>, rows: seq<Row<T>>) returns (resolved: map<string, Row<T>>)
    ensures Answers(resolved, chain, rows)
  {
    var byCategory := GroupByCategory(rows);
    resolved := map[];
    for i := 0 to |chain|
      invariant Answers(resolved, chain[..i], rows)
    {
      assert chain[..i + 1][..i] == chain[..i];
      var own := if chain[i] in byCategory then byCategory[chain[i]] else [];
      resolved := Override(resolved, own);
    }
    assert chain[..|chain|] == chain;
  }

  /** Two dictionaries that answer the same search are the same dictionary. */
  lemma AnswersAgree<T>(a: map<string, Row<T>>, b: map<string, Row<T>>, chain: seq<CatId>, rows: seq<Row<T>>,
                        chain': seq<CatId>, rows': seq<Row<T>>)
    requires Answers(a, chain, rows) && Answers(b, chain', rows')
    requires forall key :: LeafFirst(chain, rows, key) == LeafFirst(chain', rows', key)
    ensures a == b
  {
    forall key ensures (key in a <==> key in b) && (key in a ==> a[key] == b[key]) {
      assert LeafFirst(chain, rows, key) == LeafFirst(chain', rows', key);
    }
  }

  // ---------------------------------------------------------------- what the search finds

  /** Row n is the category's last row of the key. */
  predicate IsLastOf<T>(rows: seq<Row<T>>, n: nat, c: CatId, key: string) {
    && n < |rows| && rows[n].owner == c && rows[n].key == key
    && forall m | n < m < |rows| && rows[m].owner == c :: rows[m].key != key
  }

  predicate HasNone<T>(rows: seq<Row<T>>, c: CatId, key: string) {
    forall m | 0 <= m < |rows| && rows[m].owner == c :: rows[m].key != key
  }

  predicate FindsLast<T(==)>(found: Option<Row<T>>, rows: seq<Row<T>>, n: nat, c: CatId, key: string) {
    if found.None? then HasNone(rows, c, key) else IsLastOf(rows, n, c, key) && rows[n] == found.value
  }

  lemma OneMoreRow<T>(found: Option<Row<T>>, rows: seq<Row<T>>, n: nat, last: Row<T>, c: CatId, key: string)
    requires FindsLast(found, rows, n, c, key)
    ensures if last.owner == c && last.key == key then FindsLast(Some(last), rows + [last], |rows|, c, key)
            else FindsLast(found, rows + [last], n, c, key)
  {}

  lemma LastOwnedSnoc<T>(rows: seq<Row<T>>, last: Row<T>, c: CatId, key: string)
    ensures LastWith(Owned(rows + [last], c), key)
            == if last.owner == c && last.key == key then Some(last) else LastWith(Owned(rows, c), key)
  {
    assert (rows + [last])[..|rows|] == rows;
    assert (Owned(rows, c) + [last])[..|Owned(rows, c)|] == Owned(rows, c);
    assert Owned(rows, c) + [] == Owned(rows, c);
  }

  lemma {:induction false} LastOwnedMeans<T>(rows: seq<Row<T>>, c: CatId, key: string) returns (n: nat)
    ensures FindsLast(LastWith(Owned(rows, c), key), rows, n, c, key)
  {
    n := 0;
    if rows != [] {
      var before, last := rows[..|rows| - 1], rows[|rows| - 1];
      assert rows == before + [last];
      n := LastOwnedMeans(before, c, key);
      OneMoreRow(LastWith(Owned(before, c), key), before, n, last, c, key);
      LastOwnedSnoc(before, last, c, key);
      if last.owner == c && last.key == key { n := |before|; }
    }
  }

  /** The row found is the last of the key in category i of the chain, and no category below i has one. */
  predicate FindsNearest<T(==)>(found: Option<Row<T>>, chain: seq<CatId>, rows: seq<Row<T>>, key: string, i: nat, n: nat) {
    if found.None? then forall k | 0 <= k < |chain| :: HasNone(rows, chain[k], key)
    else i < |chain| && FindsLast(found, rows, n, chain[i], key) && forall j | i < j < |chain| :: HasNone(rows, chain[j], key)
  }

  lemma NearestOneMore<T>(found: Option<Row<T>>, chain: seq<CatId>, leaf: CatId, rows: seq<Row<T>>, key: string, i: nat, n: nat)
    requires FindsNearest(found, chain, rows, key, i, n) && HasNone(rows, leaf, key)
    ensures FindsNearest(found, chain + [leaf], rows, key, i, n)
  {}

  /** The search finds the last row of the key in the category nearest to the leaf that has one; it finds nothing
      exactly when no category of the chain has one. */
  lemma {:induction false} SearchMeans<T>(chain: seq<CatId>, rows: seq<Row<T>>, key: string) returns (i: nat, n: nat)
    ensures FindsNearest(LeafFirst(chain, rows, key), chain, rows, key, i, n)
  {
    i, n := 0, 0;
    if chain != [] {
      var last := |chain| - 1;
      n := LastOwnedMeans(rows, chain[last], key);
      if LastWith(Owned(rows, chain[last]), key).Some? {
        i := last;
      } else {
        i, n := SearchMeans(chain[..last], rows, key);
        NearestOneMore(LeafFirst(chain[..last], rows, key), chain[..last], chain[last], rows, key, i, n);
        assert chain == chain[..last] + [chain[last]];
      }
    }
  }

  /** Conversely, that row is the one the search finds. */
  lemma SearchFinds<T>(chain: seq<CatId>, rows: seq<Row<T>>, key: string, i: nat, n: nat)
    requires i < |chain| && IsLastOf(rows, n, chain[i], key) && forall j | i < j < |chain| :: HasNone(rows, chain[j], key)
    ensures LeafFirst(chain, rows, key) == Some(rows[n])
  {
    var i', n' := SearchMeans(chain, rows, key);
    assert !HasNone(rows, chain[i], key);
    assert LeafFirst(chain, rows, key).Some? && !HasNone(rows, chain[i'], key);
    assert i' == i && n' == n;
  }

  /** `resolve_inherited` in terms of the rows: a key is resolved exactly when some category of the chain has a row of
      it, and then to the last row of the category nearest to the leaf. */
  lemma InheritedMeans<T>(view: map<string, Row<T>>, chain: seq<CatId>, rows: seq<Row<T>>, key: string)
    requires Answers(view, chain, rows)
    ensures key !in view <==> forall k | 0 <= k < |chain| :: HasNone(rows, chain[k], key)
    ensures key in view ==> exists i: nat, n: nat :: FindsNearest(Some(view[key]), chain, rows, key, i, n)
  {
    assert (if key in view then Some(view[key]) else None) == LeafFirst(chain, rows, key);
    var i, n := SearchMeans(chain, rows, key);
    if key in view { assert !HasNone(rows, chain[i], key); }
  }

  // ---------------------------------------------------------------- laws

  lemma {:induction false} SearchSplits<T>(above: seq<CatId>, below: seq<CatId>, rows: seq<Row<T>>, key: string)
    ensures LeafFirst(above + below, rows, key) ==
            if LeafFirst(below, rows, key).Some? then LeafFirst(below, rows, key) else LeafFirst(above, rows, key)
  {
    if below == [] {
      assert above + below == above;
    } else {
      assert (above + below)[..|above + below| - 1] == above + below[..|below| - 1];
      SearchSplits(above, below[..|below| - 1], rows, key);
    }
  }

  /** A view is the upper part's view overridden by the lower part's; with one category below, that is the
      parent's view overridden by the category's own rows. */
  lemma ViewSplits<T>(above: seq<CatId>, below: seq<CatId>, rows: seq<Row<T>>,
                      whole: map<string, Row<T>>, upper: map<string, Row<T>>, lower: map<string, Row<T>>)
    requires Answers(whole, above + below, rows) && Answers(upper, above, rows) && Answers(lower, below, rows)
    ensures whole == upper + lower
  {
    forall key ensures (key in whole <==> key in upper + lower) && (key in whole ==> whole[key] == (upper + lower)[key]) {
      SearchSplits(above, below, rows, key);
      assert (if key in whole then Some(whole[key]) else None) == LeafFirst(above + below, rows, key);
      assert (if key in upper then Some(upper[key]) else None) == LeafFirst(above, rows, key);
      assert (if key in lower then Some(lower[key]) else None) == LeafFirst(below, rows, key);
    }
  }

  lemma {:induction false} SearchIgnoresInterleaving<T>(chain: seq<CatId>, rows: seq<Row<T>>, rows': seq<Row<T>>, key: string)
    requires forall c | c in chain :: Owned(rows, c) == Owned(rows', c)
    ensures LeafFirst(chain, rows, key) == LeafFirst(chain, rows', key)
  {
    if chain != [] {
      assert chain[|chain| - 1] in chain;
      SearchIgnoresInterleaving(chain[..|chain| - 1], rows, rows', key);
    }
  }

  /** Only the order of each category's own rows matters: rows of different categories may be interleaved in
      any way, and rows of categories outside the chain may come and go. */
  lemma InterleavingDoesNotMatter<T>(chain: seq<CatId>, rows: seq<Row<T>>, rows': seq<Row<T>>,
                                     a: map<string, Row<T>>, b: map<string, Row<T>>)
    requires forall c | c in chain :: Owned(rows, c) == Owned(rows', c)
    requires Answers(a, chain, rows) && Answers(b, chain, rows')
    ensures a == b
  {
    forall key ensures LeafFirst(chain, rows, key) == LeafFirst(chain, rows', key) {
      SearchIgnoresInterleaving(chain, rows, rows', key);
    }
    AnswersAgree(a, b, chain, rows, chain, rows');
  }

  // ---------------------------------------------------------------- settings

  datatype Scope = Platform | Tenant | Category(category: string) | Product(product: nat)

  /** The scopes that apply, most general first. */
  function Scopes(ancestors: seq<string>, product: Option<nat>): seq<Scope> {
    [Platform, Tenant] + seq(|ancestors|, k requires 0 <= k < |ancestors| => Category(ancestors[k]))
    + (if product.Some? then [Product(product.value)] else [])
  }

  /** The value of the most specific setting present. A setting may hold a JSON null, and then null it is. */
  function MostSpecific<V>(settings: map<Scope, Option<V>>, scopes: seq<Scope>): Option<V> {
    if scopes == [] then None
    else
      var last := scopes[|scopes| - 1];
      if last in settings then settings[last] else MostSpecific(settings, scopes[..|scopes| - 1])
  }

  lemma OneMoreScope<V>(settings: map<Scope, Option<V>>, scopes: seq<Scope>, last: Scope)
    ensures MostSpecific(settings, scopes + [last]) == if last in settings then settings[last] else MostSpecific(settings, scopes)
  {
    assert (scopes + [last])[..|scopes|] == scopes;
  }

  lemma GeneralScopes<V>(settings: map<Scope, Option<V>>)
    ensures MostSpecific(settings, Scopes([], None)) ==
            if Tenant in settings then settings[Tenant] else if Platform in settings then settings[Platform] else None
  {
    OneMoreScope(settings, [], Platform);
    OneMoreScope(settings, [Platform], Tenant);
    assert [] + [Platform] == [Platform];
    assert Scopes([], None) == [Platform] + [Tenant];
  }

  /** Category k of the chain has the setting, and none below it does. */
  predicate NearestWith<V>(settings: map<Scope, Option<V>>, chain: seq<string>, k: nat) {
    k < |chain| && Category(chain[k]) in settings && forall j | k < j < |chain| :: Category(chain[j]) !in settings
  }

  lemma {:induction false} CategorySettingMeans<V>(settings: map<Scope, Option<V>>, chain: seq<string>)
    ensures forall k: nat | NearestWith(settings, chain, k) :: MostSpecific(settings, Scopes(chain, None)) == settings[Category(chain[k])]
    ensures (forall k | 0 <= k < |chain| :: Category(chain[k]) !in settings) ==>
              MostSpecific(settings, Scopes(chain, None)) == MostSpecific(settings, Scopes([], None))
  {
    if chain != [] {
      var above, last := chain[..|chain| - 1], chain[|chain| - 1];
      CategorySettingMeans(settings, above);
      OneMoreScope(settings, Scopes(above, None), Category(last));
      assert Scopes(chain, None) == Scopes(above, None) + [Category(last)];
      forall k: nat | NearestWith(settings, chain, k) ensures MostSpecific(settings, Scopes(chain, None)) == settings[Category(chain[k])] {
        if k < |above| { assert NearestWith(settings, above, k); }
      }
    }
  }

  lemma ProductSettingMeans<V>(settings: map<Scope, Option<V>>, chain: seq<string>, product: Option<nat>)
    ensures MostSpecific(settings, Scopes(chain, product)) ==
            if product.Some? && Product(product.value) in settings then settings[Product(product.value)]
            else MostSpecific(settings, Scopes(chain, None))
  {
    if product.Some? {
      OneMoreScope(settings, Scopes(chain, None), Product(product.value));
      assert Scopes(chain, product) == Scopes(chain, None) + [Product(product.value)];
    }
  }

  /** `SettingsResolver.resolve`, for one key: the product's setting if there is one, else the one of the category
      nearest to the product, else the tenant's, else the platform's. */
  method ResolveSetting<V>(t: Tree, settings: map<Scope, Option<V>>, category: Option<CatId>, product: Option<nat>)
    returns (r: Outcome<Option<V>>)
    requires WF(t)
    ensures r.Err? <==> category.Some? && category.value !in t
    ensures r.Err? ==> r.error == NotFound
    ensures r.Ok? ==> r.result == MostSpecific(settings, Scopes(if category.Some? then Chain(t, category.value) else [], product))
    ensures r.Ok? && product.Some? && Product(product.value) in settings ==> r.result == settings[Product(product.value)]
    ensures r.Ok? && !(product.Some? && Product(product.value) in settings) ==>
              var chain := if category.Some? then Chain(t, category.value) else [];
              && (forall k: nat | NearestWith(settings, chain, k) :: r.result == settings[Category(chain[k])])
              && ((forall k | 0 <= k < |chain| :: Category(chain[k]) !in settings) ==>
                    r.result == if Tenant in settings then settings[Tenant]
                                else if Platform in settings then settings[Platform] else None)
  {
    var resolved: Option<V> := None;
    if Platform in settings { resolved := settings[Platform]; }
    if Tenant in settings { resolved := settings[Tenant]; }
    GeneralScopes(settings);
    var ancestors: seq<string> := [];
    if category.Some? {
      if category.value !in t { return Err(NotFound); }
      PathSpellsChain(t, category.value);
      ancestors := Split(t[category.value].path);
      resolved := ResolveAncestors(settings, ancestors, resolved);
    }
    if product.Some? && Product(product.value) in settings { resolved := settings[Product(product.value)]; }
    ProductSettingMeans(settings, ancestors, product);
    CategorySettingMeans(settings, ancestors);
    return Ok(resolved);
  }

  method ResolveAncestors<V>(settings: map<Scope, Option<V>>, ancestors: seq<string>, general: Option<V>) returns (resolved: Option<V>)
    requires general == MostSpecific(settings, Scopes([], None))
    ensures resolved == MostSpecific(settings, Scopes(ancestors, None))
  {
    resolved := general;
    assert ancestors[..0] == [];
    for i := 0 to |ancestors|
      invariant resolved == MostSpecific(settings, Scopes(ancestors[..i], None))
    {
      if Category(ancestors[i]) in settings { resolved := settings[Category(ancestors[i])]; }
      OneMoreScope(settings, Scopes(ancestors[..i], None), Category(ancestors[i]));
      assert Scopes(ancestors[..i + 1], None) == Scopes(ancestors[..i], None) + [Category(ancestors[i])];
    }
    assert ancestors[..|ancestors|] == ancestors;
  }

  // ---------------------------------------------------------------- moves

  /** What a category inherits: the rows found along the path it caches. */
  ghost predicate Inherits<T>(t: Tree, c: CatId, rows: seq<Row<T>>, view: map<string, Row<T>>)
    requires WF(t) && c in t
  {
    Answers(view, Chain(t, c), rows)
  }

  /** A move changes neither the inherited rows nor the settings of any category outside the moved subtree. */
  lemma MoveKeepsOutsideViews<T, V>(t: Tree, id: CatId, parent: Option<CatId>, c: CatId, rows: seq<Row<T>>,
                                    a: map<string, Row<T>>, b: map<string, Row<T>>,
                                    settings: map<Scope, Option<V>>, product: Option<nat>)
    requires WF(t) && Move(t, id, parent).Ok? && c in t && !Under(t, c, id)
    requires WF(Move(t, id, parent).result)
    requires Inherits(t, c, rows, a) && Inherits(Move(t, id, parent).result, c, rows, b)
    ensures a == b
    ensures MostSpecific(settings, Scopes(Chain(Move(t, id, parent).result, c), product))
            == MostSpecific(settings, Scopes(Chain(t, c), product))
  {
    MoveTouchesOnlySubtree(t, id, parent, c);
    AnswersAgree(a, b, Chain(t, c), rows, Chain(t, c), rows);
  }

  /** Inside the moved subtree a category sees what the new parent sees, overridden by the part of its own chain
      that moved along with it. */
  lemma MoveRebasesInsideViews<T>(t: Tree, id: CatId, parent: Option<CatId>, c: CatId, rows: seq<Row<T>>,
                                  moved: map<string, Row<T>>, above: map<string, Row<T>>, below: map<string, Row<T>>)
    requires WF(t) && Move(t, id, parent).Ok? && c in t && Under(t, c, id)
    requires WF(Move(t, id, parent).result) && 0 <= t[id].depth < |Chain(t, c)|
    requires Inherits(Move(t, id, parent).result, c, rows, moved)
    requires if parent.None? then above == map[] else Inherits(t, parent.value, rows, above)
    requires Answers(below, Chain(t, c)[t[id].depth..], rows)
    ensures moved == above + below
  {
    MoveSplicesChains(t, id, parent, c);
    ViewSplits(if parent.None? then [] else Chain(t, parent.value), Chain(t, c)[t[id].depth..], rows, moved, above, below);
  }
}
