/** Category rows as the objects the session tracks: a move loads them, rewrites them in place and flushes.
    Proved against the value tree of CategoryTree. */
module CategoryMoves {
  import opened Base
  import opened CategoryTree

  class Category {
    const id: CatId
    const key: string
    const slug: string
    var parentId: Option<CatId>
    var path: string
    var depth: int

    constructor Create(id: CatId, parent: Category?, key: string, slug: string)
      ensures this.id == id
      ensures parent == null ==> Row() == Cat(None, id, 0, key, slug)
      ensures parent != null ==> Row() == Cat(Some(parent.id), parent.path + "." + id, parent.depth + 1, key, slug)
    {
      this.id, this.key, this.slug := id, key, slug;
      if parent == null {
        parentId, path, depth := None, id, 0;
      } else {
        parentId, path, depth := Some(parent.id), parent.path + "." + id, parent.depth + 1;
      }
    }

    function Row(): Cat
      reads this
    {
      Cat(parentId, path, depth, key, slug)
    }

    /** What a rolled-back transaction does to a row it had rewritten. */
    method Restore(row: Cat)
      requires row.key == key && row.slug == slug
      modifies this
      ensures Row() == row
    {
      parentId, path, depth := row.parent, row.path, row.depth;
    }

    /** The loop body of `reparent_subtree` for one accepted row: keep what follows the old prefix, nothing for
        the moved category itself. */
    method MoveTo(root: CatId, oldPrefix: string, newParentId: Option<CatId>, newPath: string, depthDelta: int)
      requires if id == root then path == oldPrefix else oldPrefix + "." <= path
      modifies this
      ensures Row() == Rebased(id, old(Row()), Rebase(root, newParentId, oldPrefix, newPath, depthDelta))
      ensures parentId == if id == root then newParentId else old(parentId)
      ensures path == newPath + old(path)[|oldPrefix|..] && depth == old(depth) + depthDelta
    {
      var suffix := if id == root then "" else path[|oldPrefix|..];
      if id == root { parentId := newParentId; }
      path := newPath + suffix;
      depth := depth + depthDelta;
    }
  }

  function IdOf(category: Category?): Option<CatId> { if category == null then None else Some(category.id) }

  /** Where the moved category lands: the new prefix and the change of depth for its whole subtree. */
  function RebaseTo(category: Category, newParent: Category?): Rebase
    reads category, newParent
  {
    if newParent == null then Rebase(category.id, None, category.path, category.id, 0 - category.depth)
    else Rebase(category.id, Some(newParent.id), category.path, newParent.path + "." + category.id,
                newParent.depth + 1 - category.depth)
  }

  /** A row that `reparent_subtree` accepts: the category itself or one whose path extends its path. */
  predicate Belongs(row: Category, category: Category)
    reads row, category
  {
    row.id == category.id || category.path + "." <= row.path
  }

  predicate Refuses(category: Category, subtree: seq<Category>, newParent: Category?)
    reads category, subtree, newParent
  {
    || (newParent != null && exists row | row in subtree :: row.id == newParent.id)
    || exists row | row in subtree :: !Belongs(row, category)
  }

  /** `reparent_subtree`. The category is one of the rows it rewrites, so its old path and depth are read
      before the loop. */
  method ReparentSubtree(category: Category, subtree: seq<Category>, newParent: Category?) returns (r: Outcome<seq<Category>>)
    requires category in subtree
    requires forall i, j | 0 <= i < j < |subtree| :: subtree[i].id != subtree[j].id
    modifies subtree
    ensures r.Err? <==> old(Refuses(category, subtree, newParent))
    ensures r.Err? ==> r.error == Validation
    ensures r.Ok? ==> r.result == subtree && forall row | row in subtree ::
                        row.Row() == Rebased(row.id, old(row.Row()), old(RebaseTo(category, newParent)))
    ensures newParent != null && (exists row | row in subtree :: row.id == newParent.id) ==>
              forall row | row in subtree :: row.Row() == old(row.Row())
  {
    if newParent != null && newParent.id == category.id { return Err(Validation); }
    if newParent != null && exists row :: row in subtree && row.id != category.id && row.id == newParent.id {
      return Err(Validation);
    }
    var oldPrefix := category.path;
    var newPath := if newParent == null then category.id else newParent.path + "." + category.id;
    var newDepth := if newParent == null then 0 else newParent.depth + 1;
    var depthDelta := newDepth - category.depth;
    var newParentId := if newParent == null then None else Some(newParent.id);
    ghost var m := RebaseTo(category, newParent);
    for i := 0 to |subtree|
      invariant forall k | 0 <= k < i :: old(Belongs(subtree[k], category)) && subtree[k].Row() == Rebased(subtree[k].id, old(subtree[k].Row()), m)
      invariant forall k | i <= k < |subtree| :: subtree[k].Row() == old(subtree[k].Row())
    {
      var row := subtree[i];
      if row.id != category.id && !(oldPrefix + "." <= row.path) {
        assert row in subtree && row.path == old(row.path) && !old(Belongs(row, category));
        return Err(Validation);
      }
      row.MoveTo(category.id, oldPrefix, newParentId, newPath, depthDelta);
    }
    return Ok(subtree);
  }

  class CategoryTable {
    var rows: map<CatId, Category>

    predicate Valid()
      reads this, rows.Values
    {
      forall id | id in rows :: rows[id].id == id
    }

    function Tree(): Tree
      reads this, rows.Values
    {
      map id | id in rows :: rows[id].Row()
    }

    constructor ()
      ensures Valid() && Tree() == map[]
    {
      rows := map[];
    }

    /** The unique indexes refuse a key that a sibling has and a slug that any category has. */
    method CreateCategory(id: CatId, parentId: Option<CatId>, key: string, slug: string) returns (r: Outcome<Category>)
      requires Valid()
      modifies this
      ensures Valid()
      ensures Tree() == Apply(old(Tree()), Edit.CreateCategory(id, parentId, key, slug))
      ensures r.Ok? ==> Create(old(Tree()), id, parentId, key, slug).Ok?
      ensures r.Err? ==> Create(old(Tree()), id, parentId, key, slug) == Err(r.error) && rows == old(rows)
      ensures r.Ok? <==> && (parentId.Some? ==> parentId.value in old(rows)) && id !in old(rows)
                         && !SiblingHas(old(Tree()), id, parentId, key) && forall x | x in old(rows) :: old(rows)[x].slug != slug
      ensures r == Err(NotFound) <==> parentId.Some? && parentId.value !in old(rows)
      ensures r.Ok? ==> var c := r.result;
                && fresh(c) && rows == old(rows)[id := c] && c.parentId == parentId && c.key == key && c.slug == slug
                && c.path == (if parentId.None? then id else rows[parentId.value].path + "." + id)
                && c.depth == (if parentId.None? then 0 else rows[parentId.value].depth + 1)
    {
      var parent: Category? := null;
      if parentId.Some? {
        if parentId.value !in rows { return Err(NotFound); }
        parent := rows[parentId.value];
      }
      if id in rows || IndexRefuses(id, parentId, key) || SlugRefuses(slug) { return Err(Integrity); }
      var category := new Category.Create(id, parent, key, slug);
      Add(category);
      return Ok(category);
    }

    method Add(category: Category)
      requires Valid() && category.id !in rows
      modifies this
      ensures Valid() && rows == old(rows)[category.id := category]
      ensures Tree() == old(Tree())[category.id := category.Row()]
    {
      rows := rows[category.id := category];
    }

    predicate IndexRefuses(id: CatId, parentId: Option<CatId>, key: string): (refused: bool)
      requires Valid()
      reads this, rows.Values
      ensures refused <==> KeyTaken(Tree(), id, parentId, key)
    {
      var t := Tree();
      assert t.Keys == rows.Keys;
      exists x :: x in rows.Keys && x != id && rows[x].parentId == parentId && rows[x].key == key
    }

    predicate SlugRefuses(slug: string): (refused: bool)
      requires Valid()
      reads this, rows.Values
      ensures refused <==> SlugTaken(Tree(), slug)
    {
      var t := Tree();
      assert t.Keys == rows.Keys;
      exists x :: x in rows.Keys && rows[x].slug == slug
    }

    /** `list_subtree`: the row and every row whose path the query's pattern matches, in any order. */
    method ListSubtree(id: CatId) returns (subtree: seq<Category>)
      requires Valid()
      ensures id !in rows ==> subtree == []
      ensures id in rows ==> forall x | x in rows :: rows[x] in subtree <==> Matches(Tree(), id, x)
      ensures forall row | row in subtree :: row.id in rows && rows[row.id] == row
      ensures forall i, j | 0 <= i < j < |subtree| :: subtree[i].id != subtree[j].id
    {
      subtree := [];
      if id !in rows { return; }
      var root := rows[id];
      var left := rows.Keys;
      while left != {}
        invariant left <= rows.Keys
        invariant forall x | x in rows :: rows[x] in subtree <==> x !in left && Matches(Tree(), id, x)
        invariant forall row | row in subtree :: row.id in rows && rows[row.id] == row && row.id !in left
        invariant forall i, j | 0 <= i < j < |subtree| :: subtree[i].id != subtree[j].id
        decreases left
      {
        var x :| x in left;
        if x == id || Like(rows[x].path, root.path + "." + "%") { subtree := subtree + [rows[x]]; }
        left := left - {x};
      }
    }

    /** Undo: every row back to what was loaded. */
    method Rollback(saved: CategoryTree.Tree)
      requires Valid() && saved.Keys == rows.Keys
      requires forall x | x in rows :: rows[x].key == saved[x].key && rows[x].slug == saved[x].slug
      modifies rows.Values
      ensures Valid() && rows == old(rows) && Tree() == saved
    {
      var left := rows.Keys;
      while left != {}
        invariant left <= rows.Keys && rows == old(rows)
        invariant forall x | x in rows && x !in left :: rows[x].Row() == saved[x]
        decreases left
      {
        var x :| x in left;
        rows[x].Restore(saved[x]);
        left := left - {x};
      }
      SameTree(Tree(), saved);
    }

    /** Load the subtree and rewrite it. */
    method RewriteSubtree(category: Category, newParent: Category?) returns (r: Outcome<seq<Category>>)
      requires Valid() && category.id in rows && rows[category.id] == category
      requires newParent != null ==> newParent.id in rows && rows[newParent.id] == newParent
      requires forall x | x in rows && Matches(Tree(), category.id, x) :: Belongs(rows[x], category)
      modifies rows.Values
      ensures Valid() && rows == old(rows)
      ensures r.Err? <==> newParent != null && Matches(old(Tree()), category.id, newParent.id)
      ensures r.Err? ==> r.error == Validation && Tree() == old(Tree())
      ensures r.Ok? ==> Tree() == Moved(old(Tree()), category.id, IdOf(newParent))
    {
      ghost var before := Tree();
      var subtree := ListSubtree(category.id);
      assert rows[category.id] in subtree;
      RefusedOnlyInside(before, category, subtree, newParent);
      ghost var m := RebaseOf(before, category.id, IdOf(newParent));
      label Listed:
      assert forall x | x in rows :: rows[x].Row() == before[x];
      r := ReparentSubtree(category, subtree, newParent);
      if r.Ok? {
        forall x | x in rows && rows[x] in subtree ensures rows[x].Row() == Rebased(x, before[x], m) {
          assert old@Listed(rows[x].Row()) == before[x] && rows[x].id == x;
        }
        RewrittenIsMoved(before, category.id, IdOf(newParent), subtree);
      } else {
        assert rows[newParent.id] in subtree;
        forall x | x in rows ensures rows[x].Row() == before[x] {
          assert old@Listed(rows[x].Row()) == before[x];
        }
        SameTree(Tree(), before);
      }
    }

    /** `MoveCategory`. A refused move changes nothing, and it is refused for no other reason than `Move` names:
        the check that every listed row belongs to the subtree never fires. The index on sibling keys speaks up
        when the rewritten rows are flushed, and the transaction is rolled back. */
    method MoveCategory(id: CatId, newParentId: Option<CatId>) returns (r: Outcome<seq<Category>>)
      requires Valid() && WF(Tree())
      modifies rows.Values
      ensures Valid() && rows == old(rows) && WF(Tree())
      ensures Tree() == Apply(old(Tree()), Edit.MoveCategory(id, newParentId))
      ensures r.Err? ==> Move(old(Tree()), id, newParentId) == Err(r.error)
      ensures r.Ok? ==> Move(old(Tree()), id, newParentId).Ok?
      ensures r == Err(NotFound) <==> Missing(old(Tree()), id, newParentId)
      ensures r == Err(Validation) <==>
                !Missing(old(Tree()), id, newParentId) && newParentId.Some? && Under(old(Tree()), newParentId.value, id)
      ensures r.Ok? ==> Repointed(old(Tree()), Tree(), id, newParentId)
      ensures r.Err? ==> Tree() == old(Tree())
    {
      MoveRefusals(Tree(), id, newParentId);
      if id !in rows { return Err(NotFound); }
      var newParent: Category? := null;
      if newParentId.Some? {
        if newParentId.value !in rows { return Err(NotFound); }
        newParent := rows[newParentId.value];
      }
      var saved := Tree();
      MatchingRowsBelong(id);
      r := RewriteSubtree(rows[id], newParent);
      if r.Err? { return; }
      var flushed := FlushMove(saved, id, newParentId);
      if !flushed { return Err(Integrity); }
      MoveRepoints(saved, id, newParentId);
    }

    /** Write the rewritten rows: the sibling index either accepts them or has the transaction rolled back. */
    method FlushMove(saved: CategoryTree.Tree, id: CatId, newParentId: Option<CatId>) returns (flushed: bool)
      requires Valid() && id in saved && (newParentId.Some? ==> newParentId.value in saved)
      requires Tree() == Moved(saved, id, newParentId)
      modifies rows.Values
      ensures Valid() && rows == old(rows)
      ensures flushed <==> !KeyTaken(saved, id, newParentId, saved[id].key)
      ensures Tree() == if flushed then Moved(saved, id, newParentId) else saved
    {
      MovedKeepsRows(saved, id, newParentId);
      MovedKeepsKeys(saved, id, newParentId);
      IndexSeesOnlyTheMove(saved, id, newParentId);
      assert Tree().Keys == rows.Keys;
      assert forall x | x in rows :: Tree()[x].key == rows[x].key && Tree()[x].slug == rows[x].slug;
      if IndexRefuses(id, newParentId, rows[id].key) {
        Rollback(saved);
        return false;
      }
      return true;
    }

    lemma MatchingRowsBelong(id: CatId)
      requires Valid() && WF(Tree()) && id in rows
      ensures forall x | x in rows && Matches(Tree(), id, x) :: Belongs(rows[x], rows[id])
    {
      var t := Tree();
      forall x | x in rows && Matches(t, id, x) ensures Belongs(rows[x], rows[id]) { MatchesIsPrefix(t, id, x); }
    }

    lemma RewrittenIsMoved(t: CategoryTree.Tree, id: CatId, parent: Option<CatId>, subtree: seq<Category>)
      requires Valid() && rows.Keys == t.Keys
      requires id in rows && (parent.Some? ==> parent.value in rows)
      requires forall x | x in rows :: rows[x] in subtree <==> Matches(t, id, x)
      requires forall x | x in rows && rows[x] !in subtree :: rows[x].Row() == t[x]
      requires forall x | x in rows && rows[x] in subtree :: rows[x].Row() == Rebased(x, t[x], RebaseOf(t, id, parent))
      ensures Tree() == Moved(t, id, parent)
    {}

    lemma RefusedOnlyInside(t: CategoryTree.Tree, category: Category, subtree: seq<Category>, newParent: Category?)
      requires Valid() && t == Tree()
      requires category.id in rows && rows[category.id] == category
      requires forall x | x in rows && Matches(t, category.id, x) :: Belongs(rows[x], category)
      requires newParent != null ==> newParent.id in rows && rows[newParent.id] == newParent
      requires forall x | x in rows :: rows[x] in subtree <==> Matches(t, category.id, x)
      requires forall row | row in subtree :: row.id in rows && rows[row.id] == row
      ensures Refuses(category, subtree, newParent) <==> newParent != null && Matches(t, category.id, newParent.id)
      ensures RebaseTo(category, newParent) == RebaseOf(t, category.id, IdOf(newParent))
    {}
  }
}
