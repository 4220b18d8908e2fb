/** Keyset pagination of the live images of a tenant. A page asks for one row more than it shows; the cursor names
    the last row shown; the next page starts strictly after it. */
module Pagination {
  import opened Base

  /** What the rows are ordered by. Creation times may tie, ids do not. */
  datatype Key = Key(at: Time, id: nat)

  predicate Less(a: Key, b: Key) { a.at < b.at || (a.at == b.at && a.id < b.id) }

  // ---------------------------------------------------------------- the query

  datatype Image = Image(createdAt: Time, live: bool, status: nat, product: nat)

  type Images = map<nat, Image>

  /** The WHERE clauses of `list_page`, without the cursor's. */
  predicate Matches(image: Image, status: Option<nat>, product: Option<nat>) {
    image.live && (status.Some? ==> image.status == status.value) && (product.Some? ==> image.product == product.value)
  }

  function Matching(images: Images, status: Option<nat>, product: Option<nat>): set<Key> {
    set id | id in images && Matches(images[id], status, product) :: Key(images[id].createdAt, id)
  }

  function Beyond(keys: set<Key>, after: Option<Key>): set<Key> {
    set k | k in keys && (after.Some? ==> Less(after.value, k))
  }

  ghost function Least(s: set<Key>): (k: Key)
    requires s != {}
    ensures k in s && forall x | x in s && x != k :: Less(k, x)
  {
    var x :| x in s;
    if s == {x} then x
    else
      var m := Least(s - {x});
      assert forall y | y in s && y != x :: y in s - {x};
      if Less(x, m) then x else m
  }

  /** ORDER BY created_at, id. */
  ghost function Ascending(s: set<Key>): (keys: seq<Key>)
    ensures |keys| == |s| && forall k :: k in keys <==> k in s
  {
    if s == {} then []
    else
      var k := Least(s);
      [k] + Ascending(s - {k})
  }

  predicate Increasing(keys: seq<Key>) {
    forall i, j {:trigger Less(keys[i], keys[j])} :: 0 <= i < j < |keys| ==> Less(keys[i], keys[j])
  }

  lemma {:induction false} AscendingIncreases(s: set<Key>)
    ensures Increasing(Ascending(s))
  {
    if s != {} {
      var k := Least(s);
      AscendingIncreases(s - {k});
      var rest := Ascending(s - {k});
      forall j | 0 <= j < |rest| ensures Less(k, rest[j]) { assert rest[j] in rest; }
    }
  }

  function Take(keys: seq<Key>, n: nat): seq<Key> { if |keys| <= n then keys else keys[..n] }

  /** `list_page`. */
  ghost function ListPage(keys: set<Key>, after: Option<Key>, limit: nat): seq<Key> {
    Take(Ascending(Beyond(keys, after)), limit)
  }

  // ---------------------------------------------------------------- the page

  /** Opaque to clients; anything not issued here fails to decode. */
  datatype Token = Issued(key: Key) | Foreign

  function Decode(token: Token): Outcome<Key> { if token.Issued? then Ok(token.key) else Err(Validation) }

  datatype Page = Page(items: seq<Key>, next: Option<Token>)

  /** One row more than the limit tells whether another page follows; the cursor is the last row shown. */
  ghost function PageAfter(keys: set<Key>, after: Option<Key>, limit: int): (p: Page)
    requires limit >= -1
    ensures p.next.Some? ==> p.items != [] && p.next == Some(Issued(p.items[|p.items| - 1]))
  {
    var rows := ListPage(keys, after, limit + 1);
    var items := if limit < 0 then [] else Take(rows, limit);
    Page(items, if |rows| > limit && items != [] then Some(Issued(items[|items| - 1])) else None)
  }

  /** `ListCatalogImagesForReview`, over the rows that match its filters at that moment. Nothing bounds the
      limit from below: the database refuses a negative LIMIT, which a limit of minus one just avoids. */
  ghost function ListForReview(keys: set<Key>, cursor: Option<Token>, limit: int): Outcome<Page> {
    if cursor.Some? && Decode(cursor.value).Err? then Err(Decode(cursor.value).error)
    else if limit + 1 < 0 then Err(BadQuery)
    else Ok(PageAfter(keys, if cursor.Some? then Some(Decode(cursor.value).result) else None, limit))
  }

  /** A page shows the first rows beyond the cursor; it is the last one exactly when nothing is left, or when the
      limit is not positive. */
  lemma PageShowsPrefix(keys: set<Key>, after: Option<Key>, limit: int)
    requires limit >= -1
    ensures var p, all := PageAfter(keys, after, limit), Ascending(Beyond(keys, after));
            p.items == Take(all, if limit < 0 then 0 else limit) && (p.next.None? <==> |all| <= limit || limit <= 0)
  {}

  lemma PageIncreases(keys: set<Key>, after: Option<Key>, limit: int)
    requires limit >= -1
    ensures Increasing(PageAfter(keys, after, limit).items)
    ensures forall k | k in PageAfter(keys, after, limit).items :: k in keys && (after.Some? ==> Less(after.value, k))
  {
    PageShowsPrefix(keys, after, limit);
    AscendingIncreases(Beyond(keys, after));
    var all := Ascending(Beyond(keys, after));
    forall k | k in PageAfter(keys, after, limit).items ensures k in all {}
  }

  lemma PageItemsIncrease(keys: set<Key>, after: Option<Key>, limit: int)
    requires limit >= -1
    ensures Increasing(PageAfter(keys, after, limit).items)
  {
    PageIncreases(keys, after, limit);
  }

  lemma LastIsItem(keys: set<Key>, after: Option<Key>, limit: int)
    requires limit >= -1 && PageAfter(keys, after, limit).items != []
    ensures var items := PageAfter(keys, after, limit).items;
            items[|items| - 1] in keys && (after.Some? ==> Less(after.value, items[|items| - 1]))
  {
    var items := PageAfter(keys, after, limit).items;
    PageIncreases(keys, after, limit);
    assert items[|items| - 1] in items;
  }

  /** A row beyond the cursor is on the page, or beyond the page's last row. */
  lemma OnPageOrLater(keys: set<Key>, after: Option<Key>, limit: int, k: Key)
    requires k in keys && (after.Some? ==> Less(after.value, k)) && limit >= 1
    ensures var p := PageAfter(keys, after, limit);
            k in p.items || (p.next.Some? && Less(p.items[|p.items| - 1], k))
  {
    PageShowsPrefix(keys, after, limit);
    var all := Ascending(Beyond(keys, after));
    AscendingIncreases(Beyond(keys, after));
    assert k in all;
    var i :| 0 <= i < |all| && all[i] == k;
    if i < limit { assert Take(all, limit)[i] == k; }
  }

  /** The cursor a page hands out is accepted and leads on right after the page's last row, whatever the table has become;
      a foreign cursor is refused before the limit is looked at. */
  lemma CursorLeadsOn(keys: set<Key>, after: Option<Key>, limit: int, later: set<Key>, limit': int)
    requires limit >= -1 && PageAfter(keys, after, limit).next.Some?
    ensures var p := PageAfter(keys, after, limit);
            && p.items != []
            && ListForReview(later, p.next, limit') == if limit' >= -1 then Ok(PageAfter(later, Some(p.items[|p.items| - 1]), limit'))
                                                       else Err(BadQuery)
    ensures ListForReview(later, Some(Foreign), limit') == Err(Validation)
  {}

  /** A live image of the asked status and product, under the key of its creation time and id. */
  predicate IsAsked(images: Images, k: Key, status: Option<nat>, product: Option<nat>) {
    k.id in images
    && var image := images[k.id];
       && image.live && image.createdAt == k.at
       && (status == None || status == Some(image.status)) && (product == None || product == Some(image.product))
  }

  /** Created later, or at the same time under a higher id. */
  predicate ComesLater(a: Key, b: Key) { if a.at == b.at then a.id < b.id else a.at < b.at }

  lemma AskedIffMatching(images: Images, k: Key, status: Option<nat>, product: Option<nat>)
    ensures k in Matching(images, status, product) <==> IsAsked(images, k, status, product)
  {}

  lemma PageIsOfAsked(images: Images, status: Option<nat>, product: Option<nat>, after: Option<Key>, limit: int)
    requires limit >= -1
    ensures var items := PageAfter(Matching(images, status, product), after, limit).items;
            && (forall k | k in items :: IsAsked(images, k, status, product) && (after.Some? ==> ComesLater(after.value, k)))
            && (forall i, j | 0 <= i < j < |items| :: ComesLater(items[i], items[j]))
  {
    var keys := Matching(images, status, product);
    var items := PageAfter(keys, after, limit).items;
    PageIncreases(keys, after, limit);
    forall k | k in items ensures IsAsked(images, k, status, product) { AskedIffMatching(images, k, status, product); }
    forall i, j | 0 <= i < j < |items| ensures ComesLater(items[i], items[j]) { assert Less(items[i], items[j]); }
  }

  /** A page in terms of the table: the asked images beyond the cursor, oldest first and by id within a moment, none
      left out before the last one shown, and none at all below the limit. */
  lemma PageMeans(images: Images, status: Option<nat>, product: Option<nat>, after: Option<Key>, limit: int, k: Key)
    requires limit >= -1
    ensures var items := PageAfter(Matching(images, status, product), after, limit).items;
            && |items| <= Max(limit, 0)
            && (forall x | x in items :: IsAsked(images, x, status, product) && (after.Some? ==> ComesLater(after.value, x)))
            && (forall i, j | 0 <= i < j < |items| :: ComesLater(items[i], items[j]))
            && (IsAsked(images, k, status, product) && (after.Some? ==> ComesLater(after.value, k)) && k !in items ==>
                  |items| == Max(limit, 0) && (items != [] ==> ComesLater(items[|items| - 1], k)))
  {
    var keys := Matching(images, status, product);
    PageIsOfAsked(images, status, product, after, limit);
    PageShowsPrefix(keys, after, limit);
    AskedIffMatching(images, k, status, product);
    if limit >= 1 && k in keys && (after.Some? ==> Less(after.value, k)) { OnPageOrLater(keys, after, limit, k); }
  }

  // ---------------------------------------------------------------- walking pages while the table changes

  /** What a client collects that asks for page after page; `tables[i]` is what the i-th request sees. */
  ghost function Walk(tables: seq<set<Key>>, after: Option<Key>, limit: int): seq<Key>
    requires limit >= -1
  {
    if tables == [] then []
    else
      var p := PageAfter(tables[0], after, limit);
      p.items + (if p.next.Some? then Walk(tables[1..], Some(p.items[|p.items| - 1]), limit) else [])
  }

  lemma WalkUnfolds(tables: seq<set<Key>>, after: Option<Key>, limit: int)
    requires limit >= -1 && tables != []
    ensures var p := PageAfter(tables[0], after, limit);
            Walk(tables, after, limit)
            == p.items + (if p.next.Some? then Walk(tables[1..], Some(p.items[|p.items| - 1]), limit) else [])
  {}

  /** The walk saw a page without a cursor. */
  ghost predicate Finishes(tables: seq<set<Key>>, after: Option<Key>, limit: int)
    requires limit >= -1
  {
    tables != [] &&
    var p := PageAfter(tables[0], after, limit);
    p.next.Some? ==> Finishes(tables[1..], Some(p.items[|p.items| - 1]), limit)
  }

  lemma IncreasingConcat(a: seq<Key>, b: seq<Key>)
    requires Increasing(a) && Increasing(b)
    requires a != [] ==> forall k | k in b :: Less(a[|a| - 1], k)
    ensures Increasing(a + b)
  {
    forall i, j | 0 <= i < j < |a + b| ensures Less((a + b)[i], (a + b)[j]) {
      if i < |a| <= j {
        assert b[j - |a|] in b;
        assert i < |a| - 1 ==> Less(a[i], a[|a| - 1]);
      }
    }
  }

  /** A row of the walk is on its first page, or comes from the rest of the walk, beyond that page. */
  lemma FirstPageOrRest(tables: seq<set<Key>>, after: Option<Key>, limit: int, k: Key)
    requires limit >= -1 && tables != [] && k in Walk(tables, after, limit)
    ensures var p := PageAfter(tables[0], after, limit);
            k in p.items || (p.next.Some? && k in Walk(tables[1..], Some(p.items[|p.items| - 1]), limit))
  {
    WalkUnfolds(tables, after, limit);
  }

  lemma {:induction false} WalkStaysBeyond(tables: seq<set<Key>>, after: Key, limit: int, k: Key)
    requires limit >= -1 && k in Walk(tables, Some(after), limit)
    ensures Less(after, k)
    decreases |tables|
  {
    var p := PageAfter(tables[0], Some(after), limit);
    FirstPageOrRest(tables, Some(after), limit, k);
    if k in p.items {
      PageIncreases(tables[0], Some(after), limit);
    } else {
      var last := p.items[|p.items| - 1];
      LastIsItem(tables[0], Some(after), limit);
      WalkStaysBeyond(tables[1..], last, limit, k);
    }
  }

  /** Whatever happens between pages, rows come in order, so none comes twice. */
  lemma {:induction false} WalkNeverRepeats(tables: seq<set<Key>>, after: Option<Key>, limit: int)
    requires limit >= -1
    ensures Increasing(Walk(tables, after, limit))
    decreases |tables|
  {
    if tables != [] {
      var p := PageAfter(tables[0], after, limit);
      PageIncreases(tables[0], after, limit);
      if p.next.Some? {
        var last := p.items[|p.items| - 1];
        WalkNeverRepeats(tables[1..], Some(last), limit);
        forall k | k in Walk(tables[1..], Some(last), limit) ensures Less(last, k) {
          WalkStaysBeyond(tables[1..], last, limit, k);
        }
        IncreasingConcat(p.items, Walk(tables[1..], Some(last), limit));
      }
    }
  }

  /** Every row returned matched when its page was read. */
  lemma {:induction false} WalkReturnsSeenRows(tables: seq<set<Key>>, after: Option<Key>, limit: int, k: Key)
    requires limit >= -1 && k in Walk(tables, after, limit)
    ensures exists i :: 0 <= i < |tables| && k in tables[i]
    decreases |tables|
  {
    var p := PageAfter(tables[0], after, limit);
    if k in p.items {
      PageIncreases(tables[0], after, limit);
    } else {
      WalkReturnsSeenRows(tables[1..], Some(p.items[|p.items| - 1]), limit, k);
      var i :| 0 <= i < |tables[1..]| && k in tables[1..][i];
      assert k in tables[i + 1];
    }
  }

  /** A row that matches throughout a finished walk is returned; by the lemma above, exactly once. */
  lemma {:induction false} SteadyRowIsReturned(tables: seq<set<Key>>, after: Option<Key>, limit: int, k: Key)
    requires limit >= 1 && Finishes(tables, after, limit)
    requires (forall i | 0 <= i < |tables| :: k in tables[i]) && (after.Some? ==> Less(after.value, k))
    ensures k in Walk(tables, after, limit)
    decreases |tables|
  {
    var p := PageAfter(tables[0], after, limit);
    OnPageOrLater(tables[0], after, limit, k);
    if k !in p.items {
      assert forall i | 0 <= i < |tables[1..]| :: tables[1..][i] == tables[i + 1];
      SteadyRowIsReturned(tables[1..], Some(p.items[|p.items| - 1]), limit, k);
    }
  }

  // ---------------------------------------------------------------- a table that stays still

  /** The walk over an unchanging table, until a page has no cursor. */
  ghost function WalkAll(keys: set<Key>, after: Option<Key>, limit: int): seq<Key>
    requires limit >= -1
    decreases |Beyond(keys, after)|
  {
    var p := PageAfter(keys, after, limit);
    if p.next.None? then p.items
    else
      ShrinksBeyond(keys, after, limit);
      p.items + WalkAll(keys, Some(p.items[|p.items| - 1]), limit)
  }

  lemma ShrinksBeyond(keys: set<Key>, after: Option<Key>, limit: int)
    requires limit >= -1 && PageAfter(keys, after, limit).next.Some?
    ensures var p := PageAfter(keys, after, limit); |Beyond(keys, Some(p.items[|p.items| - 1]))| < |Beyond(keys, after)|
  {
    var p := PageAfter(keys, after, limit);
    var last := p.items[|p.items| - 1];
    PageIncreases(keys, after, limit);
    assert last in p.items;
    assert Beyond(keys, Some(last)) <= Beyond(keys, after) - {last};
    SubsetIsSmaller(Beyond(keys, Some(last)), Beyond(keys, after) - {last});
  }

  lemma SubsetIsSmaller(a: set<Key>, b: set<Key>)
    requires a <= b
    ensures |a| <= |b|
  {
    assert b == a + (b - a);
  }

  lemma HeadIsMember(a: seq<Key>)
    ensures a != [] ==> a[0] in a
  {}

  /** Two increasing sequences of the same rows are the same sequence. */
  lemma {:induction false} IncreasingIsUnique(a: seq<Key>, b: seq<Key>)
    requires Increasing(a) && Increasing(b) && forall k :: k in a <==> k in b
    ensures a == b
  {
    if a == [] {
      HeadIsMember(b);
    } else {
      assert a[0] in b;
      assert b[0] in a;
      var i :| 0 <= i < |b| && b[i] == a[0];
      var j :| 0 <= j < |a| && a[j] == b[0];
      assert i > 0 ==> Less(b[0], b[i]);
      assert j > 0 ==> Less(a[0], a[j]);
      assert i == 0;
      forall k ensures k in a[1..] <==> k in b[1..] {
        TailIsRest(a, k);
        TailIsRest(b, k);
      }
      IncreasingIsUnique(a[1..], b[1..]);
    }
  }

  lemma TailIsRest(a: seq<Key>, k: Key)
    requires a != [] && Increasing(a)
    ensures k in a[1..] <==> k in a && k != a[0]
  {
    assert a == [a[0]] + a[1..];
    if k in a[1..] {
      var i :| 0 <= i < |a| - 1 && a[1..][i] == k;
      assert Less(a[0], a[i + 1]);
    }
  }

  lemma {:induction false} WalkAllHas(keys: set<Key>, after: Option<Key>, limit: int, k: Key)
    requires limit >= 1
    ensures k in WalkAll(keys, after, limit) <==> k in Beyond(keys, after)
    decreases |Beyond(keys, after)|
  {
    var p := PageAfter(keys, after, limit);
    PageIncreases(keys, after, limit);
    if p.next.Some? {
      var last := p.items[|p.items| - 1];
      LastIsItem(keys, after, limit);
      ShrinksBeyond(keys, after, limit);
      WalkAllHas(keys, Some(last), limit, k);
    }
    if k in Beyond(keys, after) { OnPageOrLater(keys, after, limit, k); }
  }

  lemma WalkAllStaysBeyond(keys: set<Key>, after: Key, limit: int)
    requires limit >= 1
    ensures forall k | k in WalkAll(keys, Some(after), limit) :: Less(after, k)
  {
    forall k | k in WalkAll(keys, Some(after), limit) ensures Less(after, k) { WalkAllHas(keys, Some(after), limit, k); }
  }

  lemma {:induction false} WalkAllIncreases(keys: set<Key>, after: Option<Key>, limit: int)
    requires limit >= 1
    ensures Increasing(WalkAll(keys, after, limit))
    decreases |Beyond(keys, after)|
  {
    var p := PageAfter(keys, after, limit);
    PageItemsIncrease(keys, after, limit);
    if p.next.Some? {
      var last := p.items[|p.items| - 1];
      ShrinksBeyond(keys, after, limit);
      WalkAllIncreases(keys, Some(last), limit);
      WalkAllStaysBeyond(keys, last, limit);
      IncreasingConcat(p.items, WalkAll(keys, Some(last), limit));
    }
  }

  /** Walking until there is no cursor returns every matching row exactly once, in order, whatever the ties. It
      does so exactly when the limit is positive or there is nothing to return: a limit of zero or minus one ends
      the walk at once, with an empty page and no cursor, and a smaller one is refused. */
  lemma WalkIsCompleteIff(images: Images, status: Option<nat>, product: Option<nat>, limit: int)
    ensures var keys := Matching(images, status, product);
            && (limit < -1 <==> ListForReview(keys, None, limit).Err?)
            && (limit >= -1 ==> (WalkAll(keys, None, limit) == Ascending(keys) <==> limit >= 1 || keys == {}))
  {
    var keys := Matching(images, status, product);
    assert Beyond(keys, None) == keys;
    if limit >= 1 {
      WalkAllIncreases(keys, None, limit);
      forall k ensures k in WalkAll(keys, None, limit) <==> k in keys { WalkAllHas(keys, None, limit, k); }
      AscendingIncreases(keys);
      IncreasingIsUnique(WalkAll(keys, None, limit), Ascending(keys));
    } else if limit >= -1 {
      PageShowsPrefix(keys, None, limit);
    }
  }
}
