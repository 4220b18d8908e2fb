/** What `select id ... order by column limit n for update skip locked` answers, over the rows that match and that
    no other transaction holds locked. */
module Listing {
  import opened Base

  predicate Ordered(column: map<Id, int>, ids: seq<Id>)
    requires forall x | x in ids :: x in column
  {
    forall i, j | 0 <= i < j < |ids| :: column[ids[i]] <= column[ids[j]]
  }

  /** Distinct rows in the column's order, none of them behind a row that is left out, and none left out below the
      limit. Rows that tie may come in any order. */
  predicate IsListing(column: map<Id, int>, limit: nat, ids: seq<Id>) {
    && Distinct(ids) && |ids| <= limit
    && (forall x | x in ids :: x in column) && Ordered(column, ids)
    && (forall x, y | x in column && x !in ids && y in ids :: column[y] <= column[x])
    && (|ids| < limit ==> forall x | x in column :: x in ids)
  }

  lemma {:induction false} LeastExists(column: map<Id, int>, ids: set<Id>)
    requires ids != {} && ids <= column.Keys
    ensures exists x :: x in ids && forall y | y in ids :: column[x] <= column[y]
  {
    var a :| a in ids;
    if ids != {a} {
      LeastExists(column, ids - {a});
      var b :| b in ids - {a} && forall y | y in ids - {a} :: column[b] <= column[y];
      var least := if column[a] <= column[b] then a else b;
      assert forall y | y in ids :: y == a || y in ids - {a};
      assert least in ids && forall y | y in ids :: column[least] <= column[y];
    }
  }

  method ListOldest(column: map<Id, int>, limit: nat) returns (ids: seq<Id>)
    ensures IsListing(column, limit, ids)
  {
    ids := [];
    var rest := column.Keys;
    while rest != {} && |ids| < limit
      invariant rest <= column.Keys && (forall x | x in column :: x in rest <==> x !in ids)
      invariant Distinct(ids) && |ids| <= limit && (forall x | x in ids :: x in column) && Ordered(column, ids)
      invariant forall x, y | x in rest && y in ids :: column[y] <= column[x]
      decreases |rest|
    {
      LeastExists(column, rest);
      var x :| x in rest && forall y | y in rest :: column[x] <= column[y];
      ids, rest := ids + [x], rest - {x};
    }
  }

  /** A limit beyond the number of rows leaves none out. */
  lemma ListingIsAll(column: map<Id, int>, limit: nat, ids: seq<Id>)
    requires IsListing(column, limit, ids) && limit > |column|
    ensures forall x :: x in ids <==> x in column
  {
    DistinctIsNoLonger(ids, column.Keys);
  }

  lemma {:induction false} DistinctIsNoLonger(ids: seq<Id>, keys: set<Id>)
    requires Distinct(ids) && forall x | x in ids :: x in keys
    ensures |ids| <= |keys|
  {
    if ids != [] {
      var n := |ids| - 1;
      DistinctIsNoLonger(ids[..n], keys - {ids[n]});
    }
  }

  /** With a limit of one: the row that comes first, unless no row matches. */
  lemma FirstListed(column: map<Id, int>, ids: seq<Id>)
    requires IsListing(column, 1, ids)
    ensures ids == [] ==> forall x :: x !in column
    ensures ids != [] ==> ids[0] in column && forall x | x in column :: column[ids[0]] <= column[x]
  {
    if ids != [] {
      assert ids[0] in ids;
      forall x | x in column ensures column[ids[0]] <= column[x] {
        if x in ids { assert x == ids[0]; }
      }
    }
  }
}
