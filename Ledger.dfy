/** The ledger: the `expenses` table that the `/spend`, `/ui/add`,
    `/ui/delete/{id}` and `/history` endpoints change and read. Records are
    kept in the order they were added, which is ascending id order because
    every new record takes the next id. */
module Ledger {
  import opened Expenses

  /** The position of the first record carrying `id`, if any (the
      filter-by-id query followed by `first()`). */
  function IndexOfId(s: seq<Expense>, id: int): (r: Option<nat>)
    ensures r.Some? ==> r.value < |s| && s[r.value].id == id
    ensures r.Some? ==> forall k :: 0 <= k < r.value ==> s[k].id != id
    ensures r.None? <==> !HasId(s, id)
  {
    if s == [] then None
    else if s[0].id == id then Some(0)
    else match IndexOfId(s[1..], id)
      case None => None
      case Some(k) => Some(k + 1)
  }

  /** The records left after deleting `id`: the matching record is taken
      out, and nothing happens when no record matches. */
  function Delete(s: seq<Expense>, id: int): (r: seq<Expense>)
    ensures !HasId(s, id) ==> r == s
    ensures HasId(s, id) ==> |r| == |s| - 1
    ensures multiset(r) <= multiset(s)
  {
    match IndexOfId(s, id)
    case None => s
    case Some(i) =>
      assert s == s[..i] + [s[i]] + s[i + 1..];
      s[..i] + s[i + 1..]
  }

  /** Deleting an id that is present removes exactly that record: the others
      stay, in their order, and the id is gone. */
  lemma DeletePresent(s: seq<Expense>, i: int)
    requires IdsAscending(s) && 0 <= i < |s|
    ensures Delete(s, s[i].id) == s[..i] + s[i + 1..]
    ensures !HasId(Delete(s, s[i].id), s[i].id)
    ensures multiset(Delete(s, s[i].id)) + multiset{s[i]} == multiset(s)
  {
    var r := Delete(s, s[i].id);
    assert s == s[..i] + [s[i]] + s[i + 1..];
    forall k | 0 <= k < |r| ensures r[k].id != s[i].id {
      if k < i {
        assert r[k] == s[k];
      } else {
        assert r[k] == s[k + 1];
      }
    }
  }

  /** Deleting twice is the same as deleting once. */
  lemma DeleteIdempotent(s: seq<Expense>, id: int)
    requires IdsAscending(s)
    ensures Delete(Delete(s, id), id) == Delete(s, id)
  {
    var o := IndexOfId(s, id);
    if o.Some? {
      DeletePresent(s, o.value);
    }
  }

  /** Deleting keeps the ids ascending. */
  lemma DeleteAscending(s: seq<Expense>, id: int)
    requires IdsAscending(s)
    ensures IdsAscending(Delete(s, id))
  {
  }

  /** Deleting lowers the total by the amount of the record removed. */
  lemma DeleteTotal(s: seq<Expense>, id: int)
    ensures var o := IndexOfId(s, id);
      TotalSpent(Delete(s, id)) == TotalSpent(s) - (if o.Some? then s[o.value].amount else 0.0)
  {
    var o := IndexOfId(s, id);
    if o.Some? {
      TotalSpentRemoveAt(s, o.value);
    }
  }

  /** Adding a record with a fresh id and then deleting it restores the
      records exactly. */
  lemma AddThenDelete(s: seq<Expense>, e: Expense)
    requires forall k :: 0 <= k < |s| ==> s[k].id < e.id
    ensures Delete(s + [e], e.id) == s
  {
    var t := s + [e];
    assert t[|s|] == e;
    var o := IndexOfId(t, e.id);
    assert o == Some(|s|) by {
      assert HasId(t, e.id);
    }
    assert t[..|s|] == s;
  }

  /** Appending a record whose id exceeds every stored id keeps the ids
      ascending. */
  lemma AppendAscending(s: seq<Expense>, e: Expense)
    requires IdsAscending(s)
    requires forall k :: 0 <= k < |s| ==> s[k].id < e.id
    ensures IdsAscending(s + [e])
  {
  }

  /** Every record left out of the first `m` of the listing has a smaller id
      than every record in them. */
  lemma ListingTop(s: seq<Expense>, m: int)
    requires IdsAscending(s) && 0 <= m <= |s|
    ensures var h := Listing(s)[..m];
      forall k, j :: 0 <= k < |h| && 0 <= j < |s| && s[j] !in h ==> s[j].id < h[k].id
  {
    var n := |s|;
    var h := Listing(s)[..m];
    forall j | n - m <= j < n ensures s[j] in h {
      assert h[n - 1 - j] == s[j];
    }
    forall k, j | 0 <= k < |h| && 0 <= j < n && s[j] !in h
      ensures s[j].id < h[k].id
    {
      assert h[k] == s[n - 1 - k];
    }
  }

  /** The records listed newest first: reversed storage order. */
  function Listing(s: seq<Expense>): (r: seq<Expense>)
    ensures |r| == |s|
    ensures forall k :: 0 <= k < |s| ==> r[k] == s[|s| - 1 - k]
  {
    if s == [] then [] else [s[|s| - 1]] + Listing(s[..|s| - 1])
  }

  /** Listing holds the same records as storage, in descending id order. */
  lemma ListingSortedPermutation(s: seq<Expense>)
    requires IdsAscending(s)
    ensures IdsDescending(Listing(s))
    ensures multiset(Listing(s)) == multiset(s)
  {
    var l := Listing(s);
    forall i, j | 0 <= i < j < |l| ensures l[i].id > l[j].id {
      assert l[i] == s[|s| - 1 - i] && l[j] == s[|s| - 1 - j];
    }
    ListingMultiset(s);
  }

  lemma {:induction false} ListingMultiset(s: seq<Expense>)
    ensures multiset(Listing(s)) == multiset(s)
  {
    if s != [] {
      var n := |s| - 1;
      ListingMultiset(s[..n]);
      assert s == s[..n] + [s[n]];
    }
  }

  /** Two id-descending sequences holding the same records are equal, so
      Listing is the one ordering of the records by id, descending. */
  lemma {:induction false} DescendingUnique(a: seq<Expense>, b: seq<Expense>)
    requires IdsDescending(a) && IdsDescending(b)
    requires multiset(a) == multiset(b)
    ensures a == b
  {
    if a == [] {
      assert |b| == |multiset(b)| == 0;
    } else {
      assert |b| == |multiset(b)| == |multiset(a)| == |a|;
      SameHead(a, b);
      SameTails(a, b);
      DescendingUnique(a[1..], b[1..]);
    }
  }

  /** Any id-descending arrangement of the stored records is the listing:
      reversing storage order is sorting by id, descending. */
  lemma ListingIsSortByIdDesc(s: seq<Expense>, l: seq<Expense>)
    requires IdsAscending(s)
    requires IdsDescending(l) && multiset(l) == multiset(s)
    ensures l == Listing(s)
  {
    ListingSortedPermutation(s);
    DescendingUnique(l, Listing(s));
  }

  /** Both sequences start with the record of the largest id. */
  lemma SameHead(a: seq<Expense>, b: seq<Expense>)
    requires IdsDescending(a) && IdsDescending(b)
    requires multiset(a) == multiset(b) && a != [] && b != []
    ensures a[0] == b[0]
  {
    assert a[0] in multiset(b) && b[0] in multiset(a);
    var j :| 0 <= j < |b| && b[j] == a[0];
    var i :| 0 <= i < |a| && a[i] == b[0];
    assert a[i].id <= a[0].id;
    assert b[j].id <= b[0].id;
  }

  /** With the same first record, the rests hold the same records too. */
  lemma SameTails(a: seq<Expense>, b: seq<Expense>)
    requires multiset(a) == multiset(b) && a != [] && b != [] && a[0] == b[0]
    ensures multiset(a[1..]) == multiset(b[1..])
  {
    assert a == [a[0]] + a[1..] && b == [b[0]] + b[1..];
    assert multiset(a[1..]) == multiset(a) - multiset{a[0]};
    assert multiset(b[1..]) == multiset(b) - multiset{b[0]};
  }

  /** At most `limit` records from the front; a negative limit keeps all
      (SQL `LIMIT` as SQLite reads it). */
  function Take(l: seq<Expense>, limit: int): (r: seq<Expense>)
    ensures limit >= 0 ==> |r| == if limit < |l| then limit else |l|
    ensures limit < 0 ==> r == l
    ensures r <= l
  {
    if limit < 0 || limit >= |l| then l else l[..limit]
  }

  /** A shorter limit gives a prefix of a longer one. */
  lemma TakeMonotone(l: seq<Expense>, n: int, m: int)
    requires 0 <= n <= m || m < 0
    ensures Take(l, n) <= Take(l, m)
  {
  }

  /** The history listing holds the newest records of the ledger, newest
      first: every record it leaves out is older than every record it shows. */
  lemma HistoryNewest(s: seq<Expense>, limit: int)
    requires IdsAscending(s)
    ensures var h := Take(Listing(s), limit);
      && IdsDescending(h)
      && (forall k :: 0 <= k < |h| ==> h[k] in s)
      && (forall k, j :: 0 <= k < |h| && 0 <= j < |s| && s[j] !in h ==> s[j].id < h[k].id)
  {
    var m := if limit < 0 || limit > |s| then |s| else limit;
    var h := Take(Listing(s), limit);
    assert h == Listing(s)[..m];
    ListingSortedPermutation(s);
    ListingTop(s, m);
    forall k | 0 <= k < |h| ensures h[k] in s {
      assert h[k] == s[|s| - 1 - k];
    }
  }

  class Ledger {
    var records: seq<Expense>
    var nextId: int

    /** Ids start at 1, ascend in storage order and stay below the next id. */
    ghost predicate Valid()
      reads this
    {
      && IdsAscending(records)
      && (forall k :: 0 <= k < |records| ==> 1 <= records[k].id < nextId)
      && nextId >= 1
    }

    constructor ()
      ensures Valid() && records == [] && nextId == 1
    {
      records := [];
      nextId := 1;
    }

    /** Stores a new record under a fresh id, dated today. */
    method Add(amount: real, description: string, today: int) returns (e: Expense)
      requires Valid()
      modifies this
      ensures Valid()
      ensures e == Expense(old(nextId), amount, description, today)
      ensures !HasId(old(records), e.id)
      ensures records == old(records) + [e]
      ensures nextId == old(nextId) + 1
      ensures TotalSpent(records) == old(TotalSpent(records)) + amount
    {
      e := Expense(nextId, amount, description, today);
      AppendAscending(records, e);
      TotalSpentAppend(records, [e]);
      assert [e][..0] == [];
      records := records + [e];
      nextId := nextId + 1;
    }

    /** Deletes the record carrying `id`, if there is one, and says whether
        there was. */
    method Remove(id: int) returns (removed: bool)
      requires Valid()
      modifies this
      ensures Valid()
      ensures removed == old(HasId(records, id))
      ensures records == Delete(old(records), id)
      ensures !HasId(records, id)
      ensures !removed ==> records == old(records)
      ensures nextId == old(nextId)
    {
      var o := IndexOfId(records, id);
      DeleteAscending(records, id);
      match o {
        case None =>
          removed := false;
        case Some(i) =>
          DeletePresent(records, i);
          records := records[..i] + records[i + 1..];
          removed := true;
      }
    }

    /** The newest `limit` records, newest first, and how many there are. */
    method History(limit: int := 10) returns (count: nat, h: seq<Expense>)
      requires Valid()
      ensures h == Take(Listing(records), limit)
      ensures count == |h|
      ensures limit >= 0 ==> |h| == if limit < |records| then limit else |records|
      ensures IdsDescending(h)
      ensures forall k :: 0 <= k < |h| ==> h[k] in records
      ensures forall k, j :: 0 <= k < |h| && 0 <= j < |records| && records[j] !in h ==> records[j].id < h[k].id
    {
      var n := |records|;
      var m := if limit < 0 || limit > n then n else limit;
      h := [];
      var i := 0;
      while i < m
        invariant 0 <= i <= m
        invariant |h| == i
        invariant forall k :: 0 <= k < i ==> h[k] == records[n - 1 - k]
      {
        h := h + [records[n - 1 - i]];
        i := i + 1;
      }
      count := |h|;
      assert h == Listing(records)[..m];
      HistoryNewest(records, limit);
    }
  }

  /** Deleting an id a second time reports that nothing was there and leaves
      the ledger as the first delete left it. */
  method RemoveTwice(l: Ledger, id: int) returns (first: bool, second: bool)
    requires l.Valid()
    modifies l
    ensures l.Valid()
    ensures first == old(HasId(l.records, id)) && !second
    ensures l.records == Delete(old(l.records), id)
  {
    first := l.Remove(id);
    second := l.Remove(id);
  }

  /** Adding a record and then deleting it by its new id restores the records
      and the total spent. */
  method AddThenRemove(l: Ledger, amount: real, description: string, today: int) returns (e: Expense, removed: bool)
    requires l.Valid()
    modifies l
    ensures l.Valid() && removed
    ensures l.records == old(l.records)
    ensures TotalSpent(l.records) == old(TotalSpent(l.records))
  {
    e := l.Add(amount, description, today);
    removed := l.Remove(e.id);
    AddThenDelete(old(l.records), e);
  }
}
