/**
 * The "latest transactions" table of the dashboard (src/pages/Home.tsx): the fetched list is
 * sorted in place, newest first, the first six are kept, each gets a formatted date and a
 * formatted magnitude, and expenses are shown with a leading minus sign. Formatting dates and
 * currency is locale code and is passed in as functions.
 */
module Home {
  import opened Wrappers
  import opened Types

  /** Non-increasing `getTime()` of the dates: newest first. */
  predicate NewestFirst(s: seq<Transaction>)
  {
    forall i, j :: 0 <= i < j < |s| ==> s[i].date.time >= s[j].date.time
  }

  // ---------------------------------------------------------------------------------------
  // The sort's specification. The engine's sort is stable, so the comparator by descending
  // timestamp determines the result completely: newest first, and entries with the same
  // timestamp in the order they were fetched. Inserting each entry in turn behind every entry
  // at least as new as itself gives exactly that list.
  // ---------------------------------------------------------------------------------------

  /** `x` placed into a newest-first list: in front of the strictly older entries at its end. */
  function InsertNewest(s: seq<Transaction>, x: Transaction): seq<Transaction>
  {
    if s == [] then [x]
    else if s[|s| - 1].date.time < x.date.time then InsertNewest(s[..|s| - 1], x) + [s[|s| - 1]]
    else s + [x]
  }

  /** The list the stable newest-first sort yields. */
  function SortedNewest(s: seq<Transaction>): seq<Transaction>
  {
    if s == [] then [] else InsertNewest(SortedNewest(s[..|s| - 1]), s[|s| - 1])
  }

  /** The entries with timestamp `time`, in order. */
  function WithTime(s: seq<Transaction>, time: int): seq<Transaction>
  {
    if s == [] then []
    else WithTime(s[..|s| - 1], time) + (if s[|s| - 1].date.time == time then [s[|s| - 1]] else [])
  }

  lemma WithTimeSnoc(s: seq<Transaction>, t: Transaction, time: int)
    ensures WithTime(s + [t], time) == WithTime(s, time) + (if t.date.time == time then [t] else [])
  {
    assert (s + [t])[..|s + [t]| - 1] == s;
  }

  lemma {:induction false} InsertNewestPermutation(s: seq<Transaction>, x: Transaction)
    ensures multiset(InsertNewest(s, x)) == multiset(s) + multiset{x}
    decreases |s|
  {
    if s != [] && s[|s| - 1].date.time < x.date.time {
      var init := s[..|s| - 1];
      InsertNewestPermutation(init, x);
      assert s == init + [s[|s| - 1]];
    }
  }

  lemma {:induction false} InsertNewestSorted(s: seq<Transaction>, x: Transaction)
    requires NewestFirst(s)
    ensures NewestFirst(InsertNewest(s, x))
    decreases |s|
  {
    if s != [] {
      var init, last := s[..|s| - 1], s[|s| - 1];
      if last.date.time < x.date.time {
        InsertNewestSorted(init, x);
        InsertNewestPermutation(init, x);
        var front := InsertNewest(init, x);
        forall y | y in front
          ensures y.date.time >= last.date.time
        {
          assert y in multiset(front);
          if y != x {
            assert y in init;
            var k :| 0 <= k < |init| && init[k] == y;
            assert s[k] == y;
          }
        }
        forall p, q | 0 <= p < q < |front + [last]|
          ensures (front + [last])[p].date.time >= (front + [last])[q].date.time
        {
          if q == |front| {
            assert (front + [last])[p] in front;
          }
        }
      }
    }
  }

  lemma {:induction false} InsertNewestTies(s: seq<Transaction>, x: Transaction, time: int)
    ensures WithTime(InsertNewest(s, x), time) == WithTime(s, time) + (if x.date.time == time then [x] else [])
    decreases |s|
  {
    if s == [] {
      WithTimeSnoc([], x, time);
      assert [] + [x] == [x];
    } else {
      var init, last := s[..|s| - 1], s[|s| - 1];
      assert s == init + [last];
      WithTimeSnoc(init, last, time);
      if last.date.time < x.date.time {
        InsertNewestTies(init, x, time);
        WithTimeSnoc(InsertNewest(init, x), last, time);
      } else {
        WithTimeSnoc(s, x, time);
      }
    }
  }

  /**
   * The sorted list is newest first, holds exactly the fetched entries, and keeps entries with
   * equal timestamps in their fetched order.
   */
  lemma {:induction false} SortedNewestSpec(s: seq<Transaction>)
    ensures NewestFirst(SortedNewest(s))
    ensures multiset(SortedNewest(s)) == multiset(s)
    ensures forall time :: WithTime(SortedNewest(s), time) == WithTime(s, time)
    decreases |s|
  {
    if s != [] {
      var init, last := s[..|s| - 1], s[|s| - 1];
      assert s == init + [last];
      SortedNewestSpec(init);
      InsertNewestSorted(SortedNewest(init), last);
      InsertNewestPermutation(SortedNewest(init), last);
      forall time
        ensures WithTime(SortedNewest(s), time) == WithTime(s, time)
      {
        InsertNewestTies(SortedNewest(init), last, time);
        WithTimeSnoc(init, last, time);
      }
    }
  }

  // ---------------------------------------------------------------------------------------
  // The in-place sort
  // ---------------------------------------------------------------------------------------

  /** The in-place sort of the dashboard's list: the array becomes the stable newest-first order. */
  method SortNewestFirst(a: array<Transaction>)
    modifies a
    ensures a[..] == SortedNewest(old(a[..]))
    ensures NewestFirst(a[..]) && multiset(a[..]) == multiset(old(a[..]))
  {
    ghost var fetched := a[..];
    var i := 0;
    while i < a.Length
      invariant 0 <= i <= a.Length
      invariant a[..i] == SortedNewest(fetched[..i])
      invariant forall k :: i <= k < a.Length ==> a[k] == fetched[k]
    {
      SortedNewestStep(fetched, i);
      InsertIntoPrefix(a, i);
      i := i + 1;
    }
    assert a[..a.Length] == a[..] && fetched[..a.Length] == fetched;
    SortedNewestSpec(fetched);
  }

  /** One insertion step: moves `a[i]` left past the strictly older entries of `a[..i]`. */
  method InsertIntoPrefix(a: array<Transaction>, i: int)
    requires 0 <= i < a.Length
    modifies a
    ensures a[..i + 1] == InsertNewest(old(a[..i]), old(a[i]))
    ensures forall k :: i < k < a.Length ==> a[k] == old(a[k])
  {
    ghost var prefix, x := a[..i], a[i];
    var j := i;
    while j > 0 && a[j - 1].date.time < a[j].date.time
      invariant 0 <= j <= i
      invariant a[j] == x
      invariant forall k :: 0 <= k < j ==> a[k] == prefix[k]
      invariant forall k :: j < k <= i ==> a[k] == prefix[k - 1]
      invariant forall k :: j <= k < i ==> prefix[k].date.time < x.date.time
      invariant forall k :: i < k < a.Length ==> a[k] == old(a[k])
    {
      SwapAdjacent(a, j);
      j := j - 1;
    }
    InsertAt(prefix, x, j);
    Assembled(a[..i + 1], prefix, x, j);
  }

  /** Where the insertion stops: behind the entries at least as new, in front of the older ones. */
  lemma {:induction false} InsertAt(prefix: seq<Transaction>, x: Transaction, j: int)
    requires 0 <= j <= |prefix| && (j == 0 || prefix[j - 1].date.time >= x.date.time)
    requires forall k :: j <= k < |prefix| ==> prefix[k].date.time < x.date.time
    ensures InsertNewest(prefix, x) == prefix[..j] + [x] + prefix[j..]
    decreases |prefix|
  {
    if j < |prefix| {
      var init, last := prefix[..|prefix| - 1], prefix[|prefix| - 1];
      assert last.date.time < x.date.time;
      assert InsertNewest(prefix, x) == InsertNewest(init, x) + [last];
      assert j == 0 || init[j - 1] == prefix[j - 1];
      assert forall k :: j <= k < |init| ==> init[k] == prefix[k];
      InsertAt(init, x, j);
      SplitBeforeLast(prefix, [x], j);
    } else {
      assert prefix[..j] == prefix && prefix[j..] == [];
    }
  }

  /** Putting `m` at position `j` commutes with appending the last entry. */
  lemma SplitBeforeLast(s: seq<Transaction>, m: seq<Transaction>, j: int)
    requires 0 <= j < |s|
    ensures s[..|s| - 1][..j] + m + s[..|s| - 1][j..] + [s[|s| - 1]] == s[..j] + m + s[j..]
  {
    var init := s[..|s| - 1];
    assert init[..j] == s[..j];
    assert init[j..] + [s[|s| - 1]] == s[j..];
  }

  /** One more fetched entry: the sorted list of the longer prefix inserts it into the shorter one's. */
  lemma SortedNewestStep(s: seq<Transaction>, i: int)
    requires 0 <= i < |s|
    ensures SortedNewest(s[..i + 1]) == InsertNewest(SortedNewest(s[..i]), s[i])
  {
    assert s[..i + 1][..i] == s[..i];
  }

  /** An array segment known element by element, read as a sequence. */
  lemma Assembled(cur: seq<Transaction>, prefix: seq<Transaction>, x: Transaction, j: int)
    requires 0 <= j <= |prefix| && |cur| == |prefix| + 1 && cur[j] == x
    requires forall k :: 0 <= k < j ==> cur[k] == prefix[k]
    requires forall k :: j < k < |cur| ==> cur[k] == prefix[k - 1]
    ensures cur == prefix[..j] + [x] + prefix[j..]
  {
    var r := prefix[..j] + [x] + prefix[j..];
    forall k | 0 <= k < |cur|
      ensures cur[k] == r[k]
    {
      if k < j {
        assert r[k] == prefix[k];
      } else if k > j {
        assert r[k] == prefix[k - 1];
      }
    }
  }

  method SwapAdjacent(a: array<Transaction>, j: int)
    requires 0 < j < a.Length
    modifies a
    ensures a[j - 1] == old(a[j]) && a[j] == old(a[j - 1])
    ensures forall k :: 0 <= k < a.Length && k != j - 1 && k != j ==> a[k] == old(a[k])
  {
    a[j - 1], a[j] := a[j], a[j - 1];
  }

  const RecentCount := 6

  /** A table row: the transaction's fields, the date as displayed, and the formatted magnitude. */
  datatype RecentEntry = RecentEntry(
    id: int,
    date: string,
    description: string,
    category: Category,
    amount: int,
    status: string,
    paymentMethod: Option<string>,
    value: string)

  function ToEntry(t: Transaction, formatDate: Date -> string, formatCurrency: nat -> string): RecentEntry
  {
    RecentEntry(t.id, formatDate(t.date), t.description, t.category, t.amount, t.status, t.paymentMethod,
                formatCurrency(Abs(t.amount)))
  }

  function Min(a: int, b: int): int { if a < b then a else b }

  /** The table rows built from the first six entries of the sorted list. */
  function RecentEntries(sorted: seq<Transaction>, formatDate: Date -> string, formatCurrency: nat -> string): (r: seq<RecentEntry>)
    ensures |r| == Min(RecentCount, |sorted|)
    ensures forall i :: 0 <= i < |r| ==>
      && r[i].id == sorted[i].id && r[i].description == sorted[i].description
      && r[i].category == sorted[i].category && r[i].amount == sorted[i].amount
      && r[i].status == sorted[i].status && r[i].paymentMethod == sorted[i].paymentMethod
      && r[i].date == formatDate(sorted[i].date)
      && r[i].value == formatCurrency(Abs(sorted[i].amount))
  {
    var kept := sorted[..Min(RecentCount, |sorted|)];
    seq(|kept|, i requires 0 <= i < |kept| => ToEntry(kept[i], formatDate, formatCurrency))
  }

  /**
   * `recentTransactions`: sorts the page's list in place (the state array itself becomes a
   * newest-first permutation of what was fetched) and returns the table rows of its first six.
   */
  method RecentTransactions(transaction: array<Transaction>, formatDate: Date -> string, formatCurrency: nat -> string)
    returns (recent: seq<RecentEntry>)
    modifies transaction
    ensures transaction[..] == SortedNewest(old(transaction[..]))
    ensures NewestFirst(transaction[..])
    ensures multiset(transaction[..]) == multiset(old(transaction[..]))
    ensures recent == RecentEntries(transaction[..], formatDate, formatCurrency)
  {
    SortNewestFirst(transaction);
    var kept := transaction[..Min(RecentCount, transaction.Length)];
    recent := seq(|kept|, i requires 0 <= i < |kept| => ToEntry(kept[i], formatDate, formatCurrency));
  }

  /**
   * The six kept are the newest: they come from the fetched list, and whatever was left out is
   * no newer than the last row shown.
   */
  lemma KeptAreNewest(fetched: seq<Transaction>, sorted: seq<Transaction>)
    requires NewestFirst(sorted) && multiset(sorted) == multiset(fetched)
    ensures var kept := sorted[..Min(RecentCount, |sorted|)];
      && multiset(kept) <= multiset(fetched)
      && (kept != [] ==> forall t :: t in multiset(fetched) - multiset(kept) ==>
            t.date.time <= kept[|kept| - 1].date.time)
  {
    var n := Min(RecentCount, |sorted|);
    var kept, rest := sorted[..n], sorted[n..];
    SplitMultiset(fetched, sorted, n);
    if kept != [] {
      RestNoNewer(sorted, n);
      forall t | t in multiset(fetched) - multiset(kept)
        ensures t.date.time <= kept[|kept| - 1].date.time
      {
        assert t in rest;
      }
    }
  }

  /** What is left of a permutation after its first `n` elements is the multiset of the rest. */
  lemma SplitMultiset(fetched: seq<Transaction>, sorted: seq<Transaction>, n: nat)
    requires n <= |sorted| && multiset(sorted) == multiset(fetched)
    ensures multiset(sorted[..n]) <= multiset(fetched)
    ensures multiset(fetched) - multiset(sorted[..n]) == multiset(sorted[n..])
  {
    assert sorted == sorted[..n] + sorted[n..];
  }

  /** In a newest-first list, nothing after position `n` - 1 is newer than the element there. */
  lemma RestNoNewer(sorted: seq<Transaction>, n: nat)
    requires NewestFirst(sorted) && 0 < n <= |sorted|
    ensures forall t :: t in sorted[n..] ==> t.date.time <= sorted[n - 1].date.time
  {
    forall t | t in sorted[n..]
      ensures t.date.time <= sorted[n - 1].date.time
    {
      var k :| 0 <= k < |sorted[n..]| && sorted[n..][k] == t;
      assert sorted[n + k] == t;
    }
  }

  /** The amount cell of line 157: revenue as is, anything else with a leading minus. */
  function ShownValue(e: RecentEntry): (shown: string)
    ensures e.category.kind == Receita ==> shown == e.value
    ensures e.category.kind != Receita ==> shown == "-" + e.value
  {
    if e.category.kind == Receita then e.value else "-" + e.value
  }

  /**
   * Since the formatted magnitude carries no sign of its own, a row shows a minus sign exactly
   * when its category is an expense, whatever the sign of the stored amount.
   */
  lemma MinusMarksExpense(t: Transaction, formatDate: Date -> string, formatCurrency: nat -> string)
    requires forall x: nat :: |formatCurrency(x)| > 0 && formatCurrency(x)[0] != '-'
    ensures var shown := ShownValue(ToEntry(t, formatDate, formatCurrency));
      shown[0] == '-' <==> t.category.kind == Despesa
    ensures ShownValue(ToEntry(t.(amount := -t.amount), formatDate, formatCurrency)) ==
            ShownValue(ToEntry(t, formatDate, formatCurrency))
  {
    var v := formatCurrency(Abs(t.amount));
    assert |v| > 0 && v[0] != '-';
  }
}
