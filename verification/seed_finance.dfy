/**
 * The financial report seed: transactions sorted by amount with a stable
 * library sort, the debit transactions filtered out of a list, and their
 * categories collected by a loop with a side-effecting accumulator. Amounts
 * are whole numbers (cents) here.
 */
module FinancialReport {
  import Sorting

  datatype Transaction = Transaction(category: string, amount: int, isDebit: bool)

  function Amount(t: Transaction): int {
    t.amount
  }

  /** `sortByAmount`: a sorted permutation of the input; the input is a value and stays as it was. */
  function SortByAmount(transactions: seq<Transaction>): (r: seq<Transaction>)
    ensures multiset(r) == multiset(transactions)
    ensures forall i, j :: 0 <= i < j < |r| ==> r[i].amount <= r[j].amount
  {
    Sorting.SortBy(transactions, Amount)
  }

  /** `Collections.sort` is stable: transactions with equal amounts keep their input order. */
  lemma SortByAmountIsStable(transactions: seq<Transaction>, amount: int)
    ensures Sorting.WithKey(SortByAmount(transactions), Amount, amount)
         == Sorting.WithKey(transactions, Amount, amount)
  {
    Sorting.SortIsStable(transactions, Amount, amount);
  }

  /** `filterDebits`: the debit transactions, in input order. */
  function FilterDebits(transactions: seq<Transaction>): (r: seq<Transaction>)
    ensures |r| <= |transactions|
    ensures forall k :: 0 <= k < |r| ==> r[k].isDebit
  {
    if |transactions| == 0 then []
    else
      var last := transactions[|transactions| - 1];
      FilterDebits(transactions[..|transactions| - 1]) + (if last.isDebit then [last] else [])
  }

  /** A transaction is in the filtered list exactly when it is a debit of the input. */
  lemma {:induction false} FilterDebitsMembers(transactions: seq<Transaction>, t: Transaction)
    ensures t in FilterDebits(transactions) <==> t in transactions && t.isDebit
  {
    if |transactions| > 0 {
      var init := transactions[..|transactions| - 1];
      FilterDebitsMembers(init, t);
      assert transactions == init + [transactions[|transactions| - 1]];
    }
  }

  /** Filtering a concatenation filters each part: the input order is kept. */
  lemma {:induction false} FilterDebitsAppend(a: seq<Transaction>, b: seq<Transaction>)
    ensures FilterDebits(a + b) == FilterDebits(a) + FilterDebits(b)
    decreases |b|
  {
    if |b| > 0 {
      var init := b[..|b| - 1];
      assert (a + b)[..|a + b| - 1] == a + init;
      FilterDebitsAppend(a, init);
    } else {
      assert a + b == a;
    }
  }

  function Categories(transactions: seq<Transaction>): (r: seq<string>)
    ensures |r| == |transactions|
    ensures forall k :: 0 <= k < |r| ==> r[k] == transactions[k].category
  {
    if |transactions| == 0 then []
    else Categories(transactions[..|transactions| - 1]) + [transactions[|transactions| - 1].category]
  }

  /** `extractDebitCategories`: the categories of the debits, in input order. */
  method ExtractDebitCategories(transactions: seq<Transaction>) returns (result: seq<string>)
    ensures result == Categories(FilterDebits(transactions))
  {
    result := [];
    for i := 0 to |transactions|
      invariant result == Categories(FilterDebits(transactions[..i]))
    {
      var t := transactions[i];
      assert transactions[..i + 1][..i] == transactions[..i];
      if t.isDebit {
        result := result + [t.category];
      }
    }
    assert transactions[..|transactions|] == transactions;
  }
}
