/** A tenant's category tree: rows point at their parent and cache the dotted path of ids from the root. The
    cache is what every ancestor and descendant query reads, so it must agree with the pointers in every
    reachable tree, through any creations and moves. */
module CategoryTree {
  import opened Base

  /** A UUID's text: lower-case hexadecimal digits and hyphens. Above all it holds no dot, and none of the
      characters that LIKE treats specially. */
  predicate IsIdChar(c: char) { '0' <= c <= '9' || 'a' <= c <= 'f' || c == '-' }

  predicate IsId(s: string) { s != "" && forall k | 0 <= k < |s| :: IsIdChar(s[k]) }

  type CatId = s: string | IsId(s) witness "0"

  datatype Cat = Cat(parent: Option<CatId>, path: string, depth: int, key: string, slug: string)

  type Tree = map<CatId, Cat>

  predicate Placed(t: Tree, id: CatId)
    requires id in t
  {
    match t[id].parent
    case None => t[id].path == id && t[id].depth == 0
    case Some(p) => p in t && t[id].path == t[p].path + "." + id && t[id].depth == t[p].depth + 1
  }

  predicate WF(t: Tree) { forall id | id in t :: Placed(t, id) }

  /** The ids from the root to this row, found by following parent pointers. */
  function Chain(t: Tree, id: CatId): (chain: seq<CatId>)
    requires WF(t) && id in t
    ensures chain != [] && chain[|chain| - 1] == id
    ensures forall k | 0 <= k < |chain| :: chain[k] in t
    ensures |chain| == t[id].depth + 1
    decreases |t[id].path|
  {
    assert Placed(t, id);
    if t[id].parent == None then [id] else Chain(t, t[id].parent.value) + [id]
  }

  ghost predicate Under(t: Tree, id: CatId, root: CatId)
    requires WF(t) && id in t
  {
    root in Chain(t, id)
  }

  // ---------------------------------------------------------------- the path, read back

  /** Python's `split(".")`. */
  function Split(s: string): (parts: seq<string>)
    ensures parts != []
  {
    if s == "" then [""]
    else
      var rest := Split(s[1..]);
      if s[0] == '.' then [""] + rest else [[s[0]] + rest[0]] + rest[1..]
  }

  lemma {:induction false} SplitId(id: string)
    requires '.' !in id
    ensures Split(id) == [id]
  {
    if id != "" {
      assert id == [id[0]] + id[1..];
      SplitId(id[1..]);
    }
  }

  lemma {:induction false} SplitAppend(path: string, id: string)
    requires '.' !in id
    ensures Split(path + "." + id) == Split(path) + [id]
  {
    var whole := path + "." + id;
    if path == "" {
      assert whole[1..] == id;
      SplitId(id);
    } else {
      assert whole[1..] == path[1..] + "." + id;
      SplitAppend(path[1..], id);
    }
  }

  /** `ancestor_ids`: splitting the cached path gives exactly the parent chain. */
  lemma {:induction false} PathSpellsChain(t: Tree, id: CatId)
    requires WF(t) && id in t
    ensures Split(t[id].path) == Chain(t, id)
    decreases |t[id].path|
  {
    assert Placed(t, id);
    if t[id].parent == None {
      SplitId(id);
    } else {
      PathSpellsChain(t, t[id].parent.value);
      SplitAppend(t[t[id].parent.value].path, id);
    }
  }

  // ---------------------------------------------------------------- the subtree query

  /** SQL's LIKE, for patterns without the escape character. */
  predicate Like(s: string, pattern: string)
    decreases |s| + |pattern|
  {
    if pattern == "" then s == ""
    else if pattern[0] == '%' then Like(s, pattern[1..]) || (s != "" && Like(s[1..], pattern))
    else s != "" && (pattern[0] == '_' || pattern[0] == s[0]) && Like(s[1..], pattern[1..])
  }

  predicate Literal(s: string) { '%' !in s && '_' !in s && '\\' !in s }

  lemma {:induction false} AnythingLikePercent(s: string)
    ensures Like(s, "%")
  {
    if s != "" { AnythingLikePercent(s[1..]); }
  }

  lemma {:induction false} LikeIsPrefix(s: string, prefix: string)
    requires Literal(prefix)
    ensures Like(s, prefix + "%") <==> prefix <= s
  {
    if prefix == "" {
      assert prefix + "%" == "%";
      AnythingLikePercent(s);
    } else {
      assert (prefix + "%")[1..] == prefix[1..] + "%" && (prefix + "%")[0] == prefix[0];
      if s != "" && s[0] == prefix[0] { LikeIsPrefix(s[1..], prefix[1..]); }
    }
  }

  /** `list_subtree`'s WHERE clause. */
  predicate Matches(t: Tree, root: CatId, id: CatId)
    requires root in t && id in t
  {
    id == root || Like(t[id].path, t[root].path + "." + "%")
  }

  predicate PathChar(c: char) { IsIdChar(c) || c == '.' }

  lemma {:induction false} PathsAreLiteral(t: Tree, id: CatId)
    requires WF(t) && id in t
    ensures forall k | 0 <= k < |t[id].path| :: PathChar(t[id].path[k])
    decreases |t[id].path|
  {
    assert Placed(t, id);
    if t[id].parent.Some? { PathsAreLiteral(t, t[id].parent.value); }
  }

  lemma PathCharsAreLiteral(path: string)
    requires forall k | 0 <= k < |path| :: PathChar(path[k])
    ensures Literal(path + ".")
  {
    var whole := path + ".";
    forall k | 0 <= k < |whole| ensures PathChar(whole[k]) {}
    assert forall c | c in whole :: PathChar(c);
  }

  /** On a well-formed tree the query's pattern is a plain prefix test. */
  lemma MatchesIsPrefix(t: Tree, root: CatId, id: CatId)
    requires WF(t) && root in t && id in t
    ensures Matches(t, root, id) <==> id == root || t[root].path + "." <= t[id].path
  {
    PathsAreLiteral(t, root);
    PathCharsAreLiteral(t[root].path);
    LikeIsPrefix(t[id].path, t[root].path + ".");
  }

  /** Two rows never cache the same path. */
  lemma PathsAreDistinct(t: Tree, a: CatId, b: CatId)
    requires WF(t) && a in t && b in t && t[a].path == t[b].path
    ensures a == b
  {
    PathSpellsChain(t, a);
    PathSpellsChain(t, b);
  }

  /** `path = p or path LIKE 'p.%'` returns exactly the row and its descendants. */
  lemma {:induction false} SubtreeQueryIsExact(t: Tree, root: CatId, id: CatId)
    requires WF(t) && root in t && id in t
    ensures Matches(t, root, id) <==> Under(t, id, root)
    decreases |t[id].path|
  {
    MatchesIsPrefix(t, root, id);
    assert Placed(t, id);
    if id != root && t[id].parent.Some? {
      var p := t[id].parent.value;
      SubtreeQueryIsExact(t, root, p);
      MatchesIsPrefix(t, root, p);
      LastSegment(t[root].path, t[p].path, id);
      if t[root].path == t[p].path { PathsAreDistinct(t, root, p); }
    } else if id != root {
      var n := |t[root].path|;
      assert (t[root].path + ".")[n] == '.';
      assert n < |id| ==> IsIdChar(id[n]);
    }
  }

  /** A dotted prefix of `p.id` is `p.` itself or a dotted prefix of `p`. */
  lemma LastSegment(r: string, p: string, id: CatId)
    ensures r + "." <= p + "." + id <==> r == p || r + "." <= p
  {
    var whole := p + "." + id;
    assert forall k | |p| < k < |whole| :: whole[k] == id[k - |p| - 1];
    if r + "." <= whole && r != p {
      assert whole[|r|] == '.' && r == whole[..|r|];
      assert |r| < |p|;
      assert r + "." == whole[..|r| + 1] == p[..|r| + 1];
    }
    if r + "." <= p { assert whole[..|r| + 1] == p[..|r| + 1] == r + "."; }
  }

  // ---------------------------------------------------------------- creating

  function PathUnder(t: Tree, id: CatId, parent: Option<CatId>): string
    requires parent.Some? ==> parent.value in t
  {
    if parent.None? then id else t[parent.value].path + "." + id
  }

  function DepthUnder(t: Tree, parent: Option<CatId>): int
    requires parent.Some? ==> parent.value in t
  {
    if parent.None? then 0 else t[parent.value].depth + 1
  }

  /** The unique indexes on sibling and root keys: another child of the parent has the key. */
  predicate KeyTaken(t: Tree, id: CatId, parent: Option<CatId>, key: string) {
    exists x :: x in t.Keys && x != id && t[x].parent == parent && t[x].key == key
  }

  predicate SlugTaken(t: Tree, slug: string) { exists x :: x in t.Keys && t[x].slug == slug }

  function Create(t: Tree, id: CatId, parent: Option<CatId>, key: string, slug: string): Outcome<Tree> {
    if parent.Some? && parent.value !in t then Err(NotFound)
    else if id in t || KeyTaken(t, id, parent, key) || SlugTaken(t, slug) then Err(Integrity)
    else Ok(t[id := Cat(parent, PathUnder(t, id, parent), DepthUnder(t, parent), key, slug)])
  }

  ghost predicate KeysUnique(t: Tree) {
    forall a, b | a in t && b in t && t[a].parent == t[b].parent && t[a].key == t[b].key :: a == b
  }

  ghost predicate SlugsUnique(t: Tree) { forall a, b | a in t && b in t && t[a].slug == t[b].slug :: a == b }

  // ---------------------------------------------------------------- moving

  datatype Rebase = Rebase(root: CatId, parent: Option<CatId>, oldPrefix: string, newPath: string, delta: int)

  function Suffix(path: string, prefix: string): string {
    if prefix <= path then path[|prefix|..] else ""
  }

  /** What `reparent_subtree` writes to one row. */
  function Rebased(id: CatId, row: Cat, m: Rebase): Cat {
    row.(parent := if id == m.root then m.parent else row.parent,
         path := m.newPath + Suffix(row.path, m.oldPrefix), depth := row.depth + m.delta)
  }

  function RebaseOf(t: Tree, id: CatId, parent: Option<CatId>): Rebase
    requires id in t && (parent.Some? ==> parent.value in t)
  {
    Rebase(id, parent, t[id].path, PathUnder(t, id, parent), DepthUnder(t, parent) - t[id].depth)
  }

  function Moved(t: Tree, id: CatId, parent: Option<CatId>): Tree
    requires id in t && (parent.Some? ==> parent.value in t)
  {
    map x | x in t :: if Matches(t, id, x) then Rebased(x, t[x], RebaseOf(t, id, parent)) else t[x]
  }

  function Move(t: Tree, id: CatId, parent: Option<CatId>): Outcome<Tree> {
    if id !in t || (parent.Some? && parent.value !in t) then Err(NotFound)
    else if parent.Some? && Matches(t, id, parent.value) then Err(Validation)
    else if KeyTaken(t, id, parent, t[id].key) then Err(Integrity)
    else Ok(Moved(t, id, parent))
  }

  /** A row below `id` hangs off another row of the same subtree; a row outside hangs off one outside. */
  lemma ParentOnSameSide(t: Tree, id: CatId, x: CatId)
    requires WF(t) && id in t && x in t && x != id && t[x].parent.Some?
    ensures Matches(t, id, x) <==> Matches(t, id, t[x].parent.value)
  {
    assert Placed(t, x);
    SubtreeQueryIsExact(t, id, x);
    SubtreeQueryIsExact(t, id, t[x].parent.value);
  }

  lemma CreateKeepsWF(t: Tree, id: CatId, parent: Option<CatId>, key: string, slug: string)
    requires WF(t) && Create(t, id, parent, key, slug).Ok?
    ensures WF(Create(t, id, parent, key, slug).result)
  {
    var t' := Create(t, id, parent, key, slug).result;
    forall x | x in t' ensures Placed(t', x) {
      if x != id { assert Placed(t, x); }
    }
  }

  lemma CreateKeepsUnique(t: Tree, id: CatId, parent: Option<CatId>, key: string, slug: string)
    requires KeysUnique(t) && SlugsUnique(t) && Create(t, id, parent, key, slug).Ok?
    ensures KeysUnique(Create(t, id, parent, key, slug).result) && SlugsUnique(Create(t, id, parent, key, slug).result)
  {
    var t' := Create(t, id, parent, key, slug).result;
    assert forall x | x in t'.Keys && x != id :: x in t.Keys && t'[x] == t[x];
  }

  lemma RebaseChild(prefix: string, base: string, path: string, x: string)
    requires prefix <= path
    ensures prefix <= path + "." + x
    ensures base + Suffix(path + "." + x, prefix) == base + Suffix(path, prefix) + "." + x
  {
    assert (path + "." + x)[..|prefix|] == path[..|prefix|] == prefix;
    assert (path + "." + x)[|prefix|..] == path[|prefix|..] + "." + x;
  }

  /** Every moved row's old path starts with the moved category's. */
  lemma InsideSharesPrefix(t: Tree, id: CatId, x: CatId)
    requires WF(t) && id in t && x in t && Matches(t, id, x)
    ensures t[id].path <= t[x].path
    ensures x != id ==> t[x].parent.Some? && t[x].parent.value in t && Matches(t, id, t[x].parent.value)
  {
    MatchesIsPrefix(t, id, x);
    assert Placed(t, x);
    if x != id {
      assert t[x].path[|t[id].path|] == '.';
      ParentOnSameSide(t, id, x);
    }
  }

  lemma InsideKeepsPlaced(t: Tree, id: CatId, parent: Option<CatId>, x: CatId)
    requires WF(t) && id in t && (parent.Some? ==> parent.value in t)
    requires x in t && x != id && Matches(t, id, x)
    ensures Placed(Moved(t, id, parent), x)
  {
    InsideSharesPrefix(t, id, x);
    assert Placed(t, x);
    var p := t[x].parent.value;
    InsideSharesPrefix(t, id, p);
    RebaseChild(t[id].path, RebaseOf(t, id, parent).newPath, t[p].path, x);
  }

  lemma MoveKeepsPlaced(t: Tree, id: CatId, parent: Option<CatId>, x: CatId)
    requires WF(t) && Move(t, id, parent).Ok? && x in t
    ensures Placed(Move(t, id, parent).result, x)
  {
    assert Placed(t, x);
    if x == id {
    } else if Matches(t, id, x) {
      InsideKeepsPlaced(t, id, parent, x);
    } else if t[x].parent.Some? {
      ParentOnSameSide(t, id, x);
    }
  }

  /** A move keeps the tree well formed: no cycle, every path its parent's path plus the own id, every depth
      one more than the parent's. */
  lemma MoveKeepsWF(t: Tree, id: CatId, parent: Option<CatId>)
    requires WF(t) && Move(t, id, parent).Ok?
    ensures WF(Move(t, id, parent).result)
  {
    forall x | x in t ensures Placed(Move(t, id, parent).result, x) { MoveKeepsPlaced(t, id, parent, x); }
  }

  /** A move is refused exactly when a row is missing, when the target lies in the moved subtree, being the
      category itself or having it among its ancestors, or when another child of the target has its key. */
  lemma MoveRefusedIff(t: Tree, id: CatId, parent: Option<CatId>)
    requires WF(t)
    ensures Move(t, id, parent).Err? <==>
      || id !in t
      || (parent.Some? && (parent.value !in t || Under(t, parent.value, id)))
      || KeyTaken(t, id, parent, t[id].key)
  {
    if id in t && parent.Some? && parent.value in t { SubtreeQueryIsExact(t, id, parent.value); }
  }

  predicate Missing(t: Tree, id: CatId, parent: Option<CatId>) { id !in t || (parent.Some? && parent.value !in t) }

  predicate SiblingHas(t: Tree, id: CatId, parent: Option<CatId>, key: string) {
    exists x :: x in t && x != id && t[x].parent == parent && t[x].key == key
  }

  /** Which refusal comes first: a missing row, then a target inside the subtree, then the key. */
  lemma MoveRefusals(t: Tree, id: CatId, parent: Option<CatId>)
    requires WF(t)
    ensures var r := Move(t, id, parent);
            if Missing(t, id, parent) then r == Err(NotFound)
            else if parent.Some? && Under(t, parent.value, id) then r == Err(Validation)
            else if SiblingHas(t, id, parent, t[id].key) then r == Err(Integrity)
            else r.Ok?
  {
    if id in t && parent.Some? && parent.value in t { SubtreeQueryIsExact(t, id, parent.value); }
  }

  lemma CreateRefusals(t: Tree, id: CatId, parent: Option<CatId>, key: string, slug: string)
    ensures var r := Create(t, id, parent, key, slug);
            if parent.Some? && parent.value !in t then r == Err(NotFound)
            else if id in t || SiblingHas(t, id, parent, key) || (exists x :: x in t && t[x].slug == slug) then r == Err(Integrity)
            else r.Ok?
  {}

  /** A created category hangs under its parent, is last in its own chain, and leaves every other row alone. */
  lemma CreatePlaces(t: Tree, id: CatId, parent: Option<CatId>, key: string, slug: string)
    requires WF(t) && Create(t, id, parent, key, slug).Ok?
    ensures var t' := Create(t, id, parent, key, slug).result;
            && WF(t') && t'.Keys == t.Keys + {id} && (forall x | x in t :: t'[x] == t[x])
            && t'[id].parent == parent && t'[id].key == key && t'[id].slug == slug
            && Chain(t', id) == (if parent.None? then [] else Chain(t, parent.value)) + [id]
  {
    CreateKeepsWF(t, id, parent, key, slug);
    CreateAdds(t, id, parent, key, slug);
    NewLeafChain(t, Create(t, id, parent, key, slug).result, id);
  }

  lemma CreateAdds(t: Tree, id: CatId, parent: Option<CatId>, key: string, slug: string)
    requires Create(t, id, parent, key, slug).Ok?
    ensures var t' := Create(t, id, parent, key, slug).result;
            && t'.Keys == t.Keys + {id} && (forall x | x in t :: t'[x] == t[x]) && (parent.Some? ==> parent.value in t)
            && t'[id].parent == parent && t'[id].key == key && t'[id].slug == slug
  {}

  lemma NewLeafChain(t: Tree, t': Tree, id: CatId)
    requires WF(t) && WF(t') && id in t' && (t'[id].parent.Some? ==> t'[id].parent.value in t)
    requires forall y | y in t :: y in t' && t'[y] == t[y]
    ensures Chain(t', id) == (if t'[id].parent.None? then [] else Chain(t, t'[id].parent.value)) + [id]
  {
    assert Placed(t', id);
    if t'[id].parent.Some? { OldChainStays(t, t', t'[id].parent.value); }
  }

  lemma {:induction false} OldChainStays(t: Tree, t': Tree, x: CatId)
    requires WF(t) && WF(t') && x in t && forall y | y in t :: y in t' && t'[y] == t[y]
    ensures Chain(t', x) == Chain(t, x)
    decreases |t[x].path|
  {
    assert Placed(t, x);
    if t[x].parent.Some? { OldChainStays(t, t', t[x].parent.value); }
  }

  /** A move keeps the keys of siblings, and all slugs, apart. */
  lemma MoveKeepsUnique(t: Tree, id: CatId, parent: Option<CatId>)
    requires KeysUnique(t) && SlugsUnique(t) && Move(t, id, parent).Ok?
    ensures KeysUnique(Move(t, id, parent).result) && SlugsUnique(Move(t, id, parent).result)
  {
    var t' := Move(t, id, parent).result;
    forall x | x in t' ensures t'[x].key == t[x].key && t'[x].slug == t[x].slug && (x != id ==> t'[x].parent == t[x].parent) {}
    SelfMatches(t, id);
    assert forall x | x in t.Keys && x != id :: !(t[x].parent == parent && t[x].key == t[id].key);
    forall a, b | a in t' && b in t' && t'[a].parent == t'[b].parent && t'[a].key == t'[b].key ensures a == b {}
  }

  /** After the rewrite the sibling index refuses exactly what it would have refused before. */
  lemma IndexSeesOnlyTheMove(t: Tree, id: CatId, parent: Option<CatId>)
    requires id in t && (parent.Some? ==> parent.value in t)
    ensures KeyTaken(Moved(t, id, parent), id, parent, t[id].key) <==> KeyTaken(t, id, parent, t[id].key)
  {
    var t' := Moved(t, id, parent);
    assert t'.Keys == t.Keys;
    assert forall x | x in t.Keys && x != id :: t'[x].parent == t[x].parent && t'[x].key == t[x].key;
  }

  lemma SelfMatches(t: Tree, id: CatId)
    requires id in t
    ensures Matches(t, id, id)
  {}

  /** A move changes one parent pointer, and keeps the pointers free of cycles. */
  ghost predicate Repointed(t: Tree, t': Tree, id: CatId, parent: Option<CatId>) {
    && WF(t) && WF(t') && t'.Keys == t.Keys && id in t
    && (parent.Some? ==> parent.value in t && !Under(t, parent.value, id))
    && forall x | x in t :: t'[x].parent == if x == id then parent else t[x].parent
  }

  lemma MoveRepoints(t: Tree, id: CatId, parent: Option<CatId>)
    requires WF(t) && Move(t, id, parent).Ok?
    ensures Repointed(t, Move(t, id, parent).result, id, parent)
  {
    MoveKeepsWF(t, id, parent);
    MoveRefusedIff(t, id, parent);
  }

  lemma {:induction false} OutsideChainStays(t: Tree, t': Tree, id: CatId, parent: Option<CatId>, x: CatId)
    requires Repointed(t, t', id, parent) && x in t && !Under(t, x, id)
    ensures Chain(t', x) == Chain(t, x)
    decreases |t[x].path|
  {
    assert Placed(t, x) && Placed(t', x);
    if t[x].parent.Some? { OutsideChainStays(t, t', id, parent, t[x].parent.value); }
  }

  ghost predicate Spliced(above: seq<CatId>, chain: seq<CatId>, k: int, chain': seq<CatId>) {
    0 <= k < |chain| && chain' == above + chain[k..]
  }

  lemma {:induction false} InsideChainSpliced(t: Tree, t': Tree, id: CatId, parent: Option<CatId>, x: CatId)
    requires Repointed(t, t', id, parent) && x in t && Under(t, x, id)
    ensures Spliced(if parent.None? then [] else Chain(t, parent.value), Chain(t, x), t[id].depth, Chain(t', x))
    ensures Chain(t, x)[t[id].depth] == id
    decreases |t[x].path|
  {
    if x == id {
      ChainUnfolds(t', x);
      LastOfChain(t, x);
      if parent.Some? { OutsideChainStays(t, t', id, parent, parent.value); }
    } else {
      var p := BelowOf(t, t', id, parent, x);
      InsideChainSpliced(t, t', id, parent, p);
      var above := if parent.None? then [] else Chain(t, parent.value);
      SpliceOneMore(above, Chain(t, p), t[id].depth, x);
    }
  }

  /** A row below the moved one extends its parent's chain before the move and after it. */
  lemma BelowOf(t: Tree, t': Tree, id: CatId, parent: Option<CatId>, x: CatId) returns (p: CatId)
    requires Repointed(t, t', id, parent) && x in t && Under(t, x, id) && x != id
    ensures p in t && Under(t, p, id) && |t[p].path| < |t[x].path|
    ensures Chain(t, x) == Chain(t, p) + [x] && Chain(t', x) == Chain(t', p) + [x]
  {
    ChainUnfolds(t, x);
    ChainUnfolds(t', x);
    p := t[x].parent.value;
  }

  lemma ChainUnfolds(t: Tree, x: CatId)
    requires WF(t) && x in t
    ensures t[x].parent.Some? ==> t[x].parent.value in t && |t[t[x].parent.value].path| < |t[x].path|
    ensures Chain(t, x) == (if t[x].parent.None? then [] else Chain(t, t[x].parent.value)) + [x]
  {
    assert Placed(t, x);
  }

  lemma LastOfChain(t: Tree, x: CatId)
    requires WF(t) && x in t
    ensures 0 <= t[x].depth < |Chain(t, x)| && Chain(t, x)[t[x].depth] == x && Chain(t, x)[t[x].depth..] == [x]
  {
    var chain := Chain(t, x);
    assert |chain| == t[x].depth + 1 && chain[|chain| - 1] == x;
  }

  lemma SpliceOneMore(above: seq<CatId>, chain: seq<CatId>, k: int, x: CatId)
    requires 0 <= k < |chain|
    ensures (chain + [x])[k] == chain[k]
    ensures above + chain[k..] + [x] == above + (chain + [x])[k..]
  {}

  /** Rows outside the moved subtree keep every field, and their ancestors. */
  lemma MoveTouchesOnlySubtree(t: Tree, id: CatId, parent: Option<CatId>, x: CatId)
    requires WF(t) && Move(t, id, parent).Ok? && x in t && !Under(t, x, id)
    ensures WF(Move(t, id, parent).result)
    ensures Move(t, id, parent).result[x] == t[x] && Chain(Move(t, id, parent).result, x) == Chain(t, x)
  {
    MoveRepoints(t, id, parent);
    OutsideChainStays(t, Move(t, id, parent).result, id, parent, x);
    SubtreeQueryIsExact(t, id, x);
  }

  /** Inside the moved subtree the ancestors above the moved row are replaced by the new parent and its own. */
  lemma MoveSplicesChains(t: Tree, id: CatId, parent: Option<CatId>, x: CatId)
    requires WF(t) && Move(t, id, parent).Ok? && x in t && Under(t, x, id)
    ensures WF(Move(t, id, parent).result)
    ensures var above := if parent.None? then [] else Chain(t, parent.value);
            var k := t[id].depth;
            0 <= k < |Chain(t, x)| && Chain(t, x)[k] == id
            && Chain(Move(t, id, parent).result, x) == above + Chain(t, x)[k..]
  {
    MoveRepoints(t, id, parent);
    InsideChainSpliced(t, Move(t, id, parent).result, id, parent, x);
  }

  lemma SameSubtreeOnceRepointed(t: Tree, t': Tree, id: CatId, parent: Option<CatId>, x: CatId)
    requires Repointed(t, t', id, parent) && x in t
    ensures Matches(t', id, x) <==> Matches(t, id, x)
  {
    SubtreeQueryIsExact(t, id, x);
    SubtreeQueryIsExact(t', id, x);
    if Under(t, x, id) {
      InsideChainSpliced(t, t', id, parent, x);
      var k, above := t[id].depth, if parent.None? then [] else Chain(t, parent.value);
      assert Chain(t', x)[|above|] == Chain(t, x)[k];
    } else {
      OutsideChainStays(t, t', id, parent, x);
    }
  }

  lemma RebaseBack(t: Tree, t': Tree, id: CatId, parent: Option<CatId>, x: CatId)
    requires Repointed(t, t', id, parent) && x in t
    requires t'[id] == Rebased(id, t[id], RebaseOf(t, id, parent)) && t'[x] == Rebased(x, t[x], RebaseOf(t, id, parent))
    requires t[id].path <= t[x].path
    requires t[id].parent.Some? ==> t[id].parent.value in t && t'[t[id].parent.value] == t[t[id].parent.value]
    ensures Rebased(x, t'[x], RebaseOf(t', id, t[id].parent)) == t[x]
  {
    assert Placed(t, id);
    var there := RebaseOf(t, id, parent);
    assert PathUnder(t', id, t[id].parent) == t[id].path && DepthUnder(t', t[id].parent) == t[id].depth;
    SuffixBack(t[id].path, there.newPath, t[x].path);
    SuffixBack(t[id].path, there.newPath, t[id].path);
  }

  lemma SuffixBack(prefix: string, base: string, path: string)
    requires prefix <= path
    ensures prefix + Suffix(base + Suffix(path, prefix), base) == path
    ensures path == prefix ==> base + Suffix(path, prefix) == base
  {
    assert (base + Suffix(path, prefix))[|base|..] == Suffix(path, prefix);
  }

  /** The place a category leaves stays free for its key. */
  lemma OldPlaceStaysFree(t: Tree, t': Tree, id: CatId, parent: Option<CatId>)
    requires Repointed(t, t', id, parent) && KeysUnique(t) && forall x | x in t :: t'[x].key == t[x].key
    ensures !KeyTaken(t', id, t[id].parent, t[id].key)
  {
    assert forall x | x in t'.Keys && x != id :: t'[x].parent == t[x].parent;
  }

  /** Moving back to the old parent is allowed and restores every row. */
  lemma MoveBackRestores(t: Tree, id: CatId, parent: Option<CatId>)
    requires WF(t) && KeysUnique(t) && Move(t, id, parent).Ok?
    ensures Move(Move(t, id, parent).result, id, t[id].parent) == Ok(t)
  {
    var t' := Moved(t, id, parent);
    MoveRepoints(t, id, parent);
    MovedKeepsKeys(t, id, parent);
    OldPlaceStaysFree(t, t', id, parent);
    MoveBackIsAllowed(t, t', id, parent);
    TreeMovedBack(t, t', id, parent);
  }

  lemma MovedKeepsKeys(t: Tree, id: CatId, parent: Option<CatId>)
    requires id in t && (parent.Some? ==> parent.value in t)
    ensures forall x | x in t :: Moved(t, id, parent)[x].key == t[x].key && Moved(t, id, parent)[x].slug == t[x].slug
  {}

  lemma TreeMovedBack(t: Tree, t': Tree, id: CatId, parent: Option<CatId>)
    requires Repointed(t, t', id, parent) && t' == Moved(t, id, parent)
    requires t[id].parent.Some? ==> t[id].parent.value in t'
    ensures Moved(t', id, t[id].parent) == t
  {
    MovedKeepsRows(t', id, t[id].parent);
    forall x | x in t ensures Moved(t', id, t[id].parent)[x] == t[x] { RowMovedBack(t, t', id, parent, x); }
    SameTree(Moved(t', id, t[id].parent), t);
  }

  lemma MovedKeepsRows(t: Tree, id: CatId, parent: Option<CatId>)
    requires id in t && (parent.Some? ==> parent.value in t)
    ensures Moved(t, id, parent).Keys == t.Keys
  {}

  lemma SameTree(a: Tree, b: Tree)
    requires a.Keys == b.Keys && forall x | x in b :: a[x] == b[x]
    ensures a == b
  {}

  lemma MoveBackIsAllowed(t: Tree, t': Tree, id: CatId, parent: Option<CatId>)
    requires Repointed(t, t', id, parent) && t' == Moved(t, id, parent) && !KeyTaken(t', id, t[id].parent, t[id].key)
    ensures id in t' && (t[id].parent.Some? ==> t[id].parent.value in t')
    ensures Move(t', id, t[id].parent) == Ok(Moved(t', id, t[id].parent))
  {
    assert Placed(t, id);
    if t[id].parent.Some? {
      ParentIsOutside(t, id);
      SameSubtreeOnceRepointed(t, t', id, parent, t[id].parent.value);
    }
  }

  lemma RowMovedBack(t: Tree, t': Tree, id: CatId, parent: Option<CatId>, x: CatId)
    requires Repointed(t, t', id, parent) && t' == Moved(t, id, parent) && x in t
    requires t[id].parent.Some? ==> t[id].parent.value in t'
    ensures Moved(t', id, t[id].parent)[x] == t[x]
  {
    SameSubtreeOnceRepointed(t, t', id, parent, x);
    if Matches(t, id, x) {
      SelfMatches(t, id);
      InsideSharesPrefix(t, id, x);
      if t[id].parent.Some? { ParentIsOutside(t, id); }
      RebaseBack(t, t', id, parent, x);
    }
  }

  lemma ParentIsOutside(t: Tree, id: CatId)
    requires WF(t) && id in t && t[id].parent.Some?
    ensures t[id].parent.value in t && !Matches(t, id, t[id].parent.value)
  {
    assert Placed(t, id);
    MatchesIsPrefix(t, id, t[id].parent.value);
  }

  // ---------------------------------------------------------------- every reachable tree

  datatype Edit =
    | CreateCategory(id: CatId, parent: Option<CatId>, key: string, slug: string)
    | MoveCategory(id: CatId, parent: Option<CatId>)

  function Attempt(t: Tree, e: Edit): Outcome<Tree> {
    match e
    case CreateCategory(id, parent, key, slug) => Create(t, id, parent, key, slug)
    case MoveCategory(id, parent) => Move(t, id, parent)
  }

  function Apply(t: Tree, e: Edit): Tree { if Attempt(t, e).Ok? then Attempt(t, e).result else t }

  function After(edits: seq<Edit>): Tree {
    if edits == [] then map[] else Apply(After(edits[..|edits| - 1]), edits[|edits| - 1])
  }

  lemma {:induction false} EveryReachableTreeIsWF(edits: seq<Edit>)
    ensures WF(After(edits))
  {
    if edits != [] {
      EveryReachableTreeIsWF(edits[..|edits| - 1]);
      var t, e := After(edits[..|edits| - 1]), edits[|edits| - 1];
      if Attempt(t, e).Ok? {
        match e
        case CreateCategory(id, parent, key, slug) => CreateKeepsWF(t, id, parent, key, slug);
        case MoveCategory(id, parent) => MoveKeepsWF(t, id, parent);
      }
    }
  }

  /** In every reachable tree siblings, roots included, have distinct keys, and all categories distinct slugs. */
  lemma {:induction false} EveryReachableTreeIsUnique(edits: seq<Edit>)
    ensures KeysUnique(After(edits)) && SlugsUnique(After(edits))
  {
    if edits != [] {
      EveryReachableTreeIsUnique(edits[..|edits| - 1]);
      var t, e := After(edits[..|edits| - 1]), edits[|edits| - 1];
      if Attempt(t, e).Ok? {
        match e
        case CreateCategory(id, parent, key, slug) => CreateKeepsUnique(t, id, parent, key, slug);
        case MoveCategory(id, parent) => MoveKeepsUnique(t, id, parent);
      }
    }
  }

  /** In every reachable tree the cached path is the parent chain and the subtree query is exact. */
  lemma CacheAgreesWithPointers(edits: seq<Edit>, root: CatId, id: CatId)
    requires root in After(edits) && id in After(edits)
    ensures WF(After(edits))
    ensures Split(After(edits)[id].path) == Chain(After(edits), id)
    ensures Matches(After(edits), root, id) <==> Under(After(edits), id, root)
  {
    EveryReachableTreeIsWF(edits);
    PathSpellsChain(After(edits), id);
    SubtreeQueryIsExact(After(edits), root, id);
  }
}
