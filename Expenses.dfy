/** The expense record kept in the `expenses` table, and the total of a set
    of records, which is where every dashboard figure starts. */
module Expenses {

  datatype Option<T> = None | Some(value: T)

  /** One row of the `expenses` table. `createdAt` is a day number
      (see module Calendar); money is exact. */
  datatype Expense = Expense(id: int, amount: real, description: string, createdAt: int)

  predicate HasId(s: seq<Expense>, id: int) {
    exists k :: 0 <= k < |s| && s[k].id == id
  }

  /** Ids strictly increase along `s`: the order in which the ledger keeps its rows. */
  predicate IdsAscending(s: seq<Expense>) {
    forall i, j :: 0 <= i < j < |s| ==> s[i].id < s[j].id
  }

  /** Ids strictly decrease along `s`: the order of the history listing. */
  predicate IdsDescending(s: seq<Expense>) {
    forall i, j :: 0 <= i < j < |s| ==> s[i].id > s[j].id
  }

  /** No record of `s` has a negative amount. */
  predicate NoNegativeAmount(s: seq<Expense>) {
    forall k :: 0 <= k < |s| ==> s[k].amount >= 0.0
  }

  /** The sum of the amounts, added from the front as a running total that
      starts at zero. When no amount is negative the total is not negative. */
  function TotalSpent(s: seq<Expense>): (r: real)
    ensures NoNegativeAmount(s) ==> r >= 0.0
  {
    if s == [] then 0.0 else TotalSpent(s[..|s| - 1]) + s[|s| - 1].amount
  }

  lemma {:induction false} TotalSpentAppend(a: seq<Expense>, b: seq<Expense>)
    ensures TotalSpent(a + b) == TotalSpent(a) + TotalSpent(b)
  {
    if b != [] {
      var n := |b| - 1;
      assert (a + b)[..|a + b| - 1] == a + b[..n];
      TotalSpentAppend(a, b[..n]);
    } else {
      assert a + b == a;
    }
  }

  /** Taking one record out of any position lowers the total by its amount. */
  lemma TotalSpentRemoveAt(s: seq<Expense>, i: int)
    requires 0 <= i < |s|
    ensures TotalSpent(s) == TotalSpent(s[..i] + s[i + 1..]) + s[i].amount
  {
    var front, back := s[..i + 1], s[i + 1..];
    assert s == front + back;
    assert front[..i] == s[..i];
    TotalSpentAppend(front, back);
    TotalSpentAppend(s[..i], back);
  }

  /** The total does not depend on the order the records come in. */
  lemma {:induction false} TotalSpentPermutation(a: seq<Expense>, b: seq<Expense>)
    requires multiset(a) == multiset(b)
    ensures TotalSpent(a) == TotalSpent(b)
  {
    if a == [] {
      assert |b| == |multiset(b)| == 0;
    } else {
      var n := |a| - 1;
      var x := a[n];
      assert a == a[..n] + [x];
      assert x in multiset(b);
      var j :| 0 <= j < |b| && b[j] == x;
      var b' := b[..j] + b[j + 1..];
      assert b == b[..j] + [x] + b[j + 1..];
      assert multiset(b) == multiset(b[..j]) + multiset{x} + multiset(b[j + 1..]);
      assert multiset(a[..n]) == multiset(a) - multiset{x};
      assert multiset(b') == multiset(b) - multiset{x};
      TotalSpentPermutation(a[..n], b');
      TotalSpentRemoveAt(b, j);
    }
  }
}
