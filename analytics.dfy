/**
 * The dashboard's analytics (src/services/analytics.ts): a twelve-month revenue/expense/profit
 * series, revenue grouped by category name, and this month's figures against the previous one.
 * The wall clock is not read: the current year and month are parameters.
 */
module Analytics {
  import opened Types

  // ---------------------------------------------------------------------------------------
  // The filters and the sum the three aggregations are built from. Each is defined on the
  // last element, so that summing is a left fold starting at zero, as in the
  // source, and a loop over a prefix extends it one element at a time.
  // ---------------------------------------------------------------------------------------

  /** The amounts added up from left to right, starting at zero. */
  function SumAmounts(txs: seq<Transaction>): int
  {
    if txs == [] then 0 else SumAmounts(txs[..|txs| - 1]) + txs[|txs| - 1].amount
  }

  /** Transactions dated in month `m` of year `year`. */
  function InPeriod(txs: seq<Transaction>, m: int, year: int): seq<Transaction>
  {
    if txs == [] then []
    else
      var t := txs[|txs| - 1];
      InPeriod(txs[..|txs| - 1], m, year) + (if t.date.month == m && t.date.year == year then [t] else [])
  }

  /** Transactions dated in `year`, any month. */
  function InYear(txs: seq<Transaction>, year: int): seq<Transaction>
  {
    if txs == [] then []
    else
      var t := txs[|txs| - 1];
      InYear(txs[..|txs| - 1], year) + (if t.date.year == year then [t] else [])
  }

  /** Transactions whose category has the given type. */
  function OfKind(txs: seq<Transaction>, kind: CategoryType): seq<Transaction>
  {
    if txs == [] then []
    else
      var t := txs[|txs| - 1];
      OfKind(txs[..|txs| - 1], kind) + (if t.category.kind == kind then [t] else [])
  }

  /** Transactions whose category has the given display name. */
  function WithName(txs: seq<Transaction>, name: string): seq<Transaction>
  {
    if txs == [] then []
    else
      var t := txs[|txs| - 1];
      WithName(txs[..|txs| - 1], name) + (if t.category.name == name then [t] else [])
  }

  /** Summed amounts of the revenue transactions. */
  function Revenue(txs: seq<Transaction>): int
  {
    SumAmounts(OfKind(txs, Receita))
  }

  /** Magnitude of the summed amounts of the expense transactions. */
  function Expense(txs: seq<Transaction>): nat
  {
    Abs(SumAmounts(OfKind(txs, Despesa)))
  }

  // Unfolding each fold once at a last element, so that proofs need not reason about slices.

  lemma SumAmountsSnoc(s: seq<Transaction>, t: Transaction)
    ensures SumAmounts(s + [t]) == SumAmounts(s) + t.amount
  {
    assert (s + [t])[..|s + [t]| - 1] == s;
  }

  lemma InPeriodSnoc(s: seq<Transaction>, t: Transaction, m: int, year: int)
    ensures InPeriod(s + [t], m, year) == InPeriod(s, m, year) + (if t.date.month == m && t.date.year == year then [t] else [])
  {
    assert (s + [t])[..|s + [t]| - 1] == s;
  }

  lemma InYearSnoc(s: seq<Transaction>, t: Transaction, year: int)
    ensures InYear(s + [t], year) == InYear(s, year) + (if t.date.year == year then [t] else [])
  {
    assert (s + [t])[..|s + [t]| - 1] == s;
  }

  lemma OfKindSnoc(s: seq<Transaction>, t: Transaction, kind: CategoryType)
    ensures OfKind(s + [t], kind) == OfKind(s, kind) + (if t.category.kind == kind then [t] else [])
  {
    assert (s + [t])[..|s + [t]| - 1] == s;
  }

  lemma WithNameSnoc(s: seq<Transaction>, t: Transaction, name: string)
    ensures WithName(s + [t], name) == WithName(s, name) + (if t.category.name == name then [t] else [])
  {
    assert (s + [t])[..|s + [t]| - 1] == s;
  }

  /** Appending nothing or one transaction to a filtered list. */
  lemma SumAmountsMaybe(s: seq<Transaction>, t: Transaction, keep: bool)
    ensures SumAmounts(s + (if keep then [t] else [])) == SumAmounts(s) + (if keep then t.amount else 0)
  {
    if keep { SumAmountsSnoc(s, t); } else { assert s + [] == s; }
  }

  lemma OfKindMaybe(s: seq<Transaction>, t: Transaction, keep: bool, kind: CategoryType)
    ensures OfKind(s + (if keep then [t] else []), kind) == OfKind(s, kind) + (if keep && t.category.kind == kind then [t] else [])
  {
    if keep { OfKindSnoc(s, t, kind); } else { assert s + [] == s; }
  }

  /** One more transaction adds its amount to the revenue exactly when it is a revenue transaction. */
  lemma RevenueSnoc(s: seq<Transaction>, t: Transaction)
    ensures Revenue(s + [t]) == Revenue(s) + (if t.category.kind == Receita then t.amount else 0)
  {
    OfKindSnoc(s, t, Receita);
    SumAmountsMaybe(OfKind(s, Receita), t, t.category.kind == Receita);
  }

  /** Revenue of a list extended by nothing or by one transaction. */
  lemma RevenueMaybe(s: seq<Transaction>, t: Transaction, keep: bool)
    ensures Revenue(s + (if keep then [t] else [])) == Revenue(s) + (if keep && t.category.kind == Receita then t.amount else 0)
  {
    if keep { RevenueSnoc(s, t); } else { assert s + [] == s; }
  }

  // ---------------------------------------------------------------------------------------
  // calculateMonthlyData
  // ---------------------------------------------------------------------------------------

  datatype MonthlyPoint = MonthlyPoint(name: string, receita: int, despesa: int, lucro: int)

  const MonthNames: seq<string> := ["Jan", "Fev", "Mar", "Abr", "Mai", "Jun", "Jul", "Ago", "Set", "Out", "Nov", "Dez"]

  /** The point for month `m` of `year`: that month's revenue, expense magnitude and profit. */
  function MonthPoint(txs: seq<Transaction>, m: Month, year: int): (p: MonthlyPoint)
    ensures p.name == MonthNames[m]
    ensures p.despesa >= 0 && p.lucro == p.receita - p.despesa
  {
    var monthTxs := InPeriod(txs, m, year);
    var receita := Revenue(monthTxs);
    var despesa := Expense(monthTxs);
    MonthlyPoint(MonthNames[m], receita, despesa, receita - despesa)
  }

  /**
   * `calculateMonthlyData`: one point per month of `currentYear`, January first, pushed by a
   * loop over the twelve months; the point of month m counts only the transactions of month m
   * of `currentYear`.
   */
  method MonthlyData(txs: seq<Transaction>, currentYear: int) returns (points: seq<MonthlyPoint>)
    ensures |points| == 12
    ensures forall m: Month :: points[m].name == MonthNames[m]
    ensures forall m: Month :: points[m] == MonthPoint(txs, m, currentYear)
  {
    points := [];
    for month := 0 to 12
      invariant |points| == month
      invariant forall k :: 0 <= k < month ==> points[k] == MonthPoint(txs, k, currentYear)
    {
      var monthTxs := InPeriod(txs, month, currentYear);
      var receita := SumAmounts(OfKind(monthTxs, Receita));
      var despesa := Abs(SumAmounts(OfKind(monthTxs, Despesa)));
      var lucro := receita - despesa;
      var point := MonthlyPoint(MonthNames[month], receita, despesa, lucro);
      assert point == MonthPoint(txs, month, currentYear);
      points := points + [point];
    }
  }

  /** Sum of `receita` over the points of months 0 .. k-1. */
  function RevenueOfMonths(txs: seq<Transaction>, year: int, k: int): int
    requires 0 <= k <= 12
  {
    if k == 0 then 0 else RevenueOfMonths(txs, year, k - 1) + MonthPoint(txs, k - 1, year).receita
  }

  lemma {:induction false} RevenueOfMonthsSnoc(txs: seq<Transaction>, t: Transaction, year: int, k: int)
    requires 0 <= k <= 12
    ensures RevenueOfMonths(txs + [t], year, k) ==
            RevenueOfMonths(txs, year, k)
            + (if t.date.year == year && t.date.month < k && t.category.kind == Receita then t.amount else 0)
  {
    if k > 0 {
      RevenueOfMonthsSnoc(txs, t, year, k - 1);
      InPeriodSnoc(txs, t, k - 1, year);
      RevenueMaybe(InPeriod(txs, k - 1, year), t, t.date.month == k - 1 && t.date.year == year);
    }
  }

  /** Transactions dated in `year` before month `k`. */
  function InFirstMonths(txs: seq<Transaction>, year: int, k: int): seq<Transaction>
  {
    if txs == [] then []
    else
      var t := txs[|txs| - 1];
      InFirstMonths(txs[..|txs| - 1], year, k) + (if t.date.year == year && t.date.month < k then [t] else [])
  }

  lemma InFirstMonthsSnoc(s: seq<Transaction>, t: Transaction, year: int, k: int)
    ensures InFirstMonths(s + [t], year, k) == InFirstMonths(s, year, k) + (if t.date.year == year && t.date.month < k then [t] else [])
  {
    assert (s + [t])[..|s + [t]| - 1] == s;
  }

  /** The points of the first `k` months add up to the revenue of the year's transactions before month `k`. */
  lemma {:induction false} FirstMonthsRevenue(txs: seq<Transaction>, year: int, k: int)
    requires 0 <= k <= 12
    ensures RevenueOfMonths(txs, year, k) == Revenue(InFirstMonths(txs, year, k))
    decreases |txs|
  {
    if txs == [] {
      RevenueOfMonthsEmpty(year, k);
    } else {
      var init, t := txs[..|txs| - 1], txs[|txs| - 1];
      assert txs == init + [t];
      FirstMonthsRevenue(init, year, k);
      RevenueOfMonthsSnoc(init, t, year, k);
      InFirstMonthsSnoc(init, t, year, k);
      RevenueMaybe(InFirstMonths(init, year, k), t, t.date.year == year && t.date.month < k);
    }
  }

  /** Every month is below twelve, so the first twelve months are the whole year. */
  lemma {:induction false} FirstTwelveMonthsAreYear(txs: seq<Transaction>, year: int)
    ensures InFirstMonths(txs, year, 12) == InYear(txs, year)
    decreases |txs|
  {
    if txs != [] {
      FirstTwelveMonthsAreYear(txs[..|txs| - 1], year);
    }
  }

  /**
   * Every transaction of `year` lies in exactly one of its twelve months, so the twelve monthly
   * revenues add up to the revenue of the whole year; other years contribute nothing.
   */
  lemma MonthlyRevenueCoversYear(txs: seq<Transaction>, year: int)
    ensures RevenueOfMonths(txs, year, 12) == Revenue(InYear(txs, year))
  {
    FirstMonthsRevenue(txs, year, 12);
    FirstTwelveMonthsAreYear(txs, year);
  }

  lemma {:induction false} RevenueOfMonthsEmpty(year: int, k: int)
    requires 0 <= k <= 12
    ensures RevenueOfMonths([], year, k) == 0
  {
    if k > 0 { RevenueOfMonthsEmpty(year, k - 1); }
  }

  /** A month with no transactions of `year` is all zeros. */
  lemma EmptyMonthIsZero(txs: seq<Transaction>, m: Month, year: int)
    requires forall t | t in txs :: t.date.month != m || t.date.year != year
    ensures MonthPoint(txs, m, year) == MonthlyPoint(MonthNames[m], 0, 0, 0)
  {
    NoneInPeriod(txs, m, year);
  }

  lemma {:induction false} NoneInPeriod(txs: seq<Transaction>, m: Month, year: int)
    requires forall t | t in txs :: t.date.month != m || t.date.year != year
    ensures InPeriod(txs, m, year) == []
    decreases |txs|
  {
    if txs != [] {
      assert forall t | t in txs[..|txs| - 1] :: t in txs;
      NoneInPeriod(txs[..|txs| - 1], m, year);
    }
  }

  /** Only the transactions of `year` matter to its series, wherever they sit in the list. */
  lemma OtherYearIgnored(txs: seq<Transaction>, m: Month, year: int)
    ensures MonthPoint(txs, m, year) == MonthPoint(InYear(txs, year), m, year)
  {
    InPeriodOfYear(txs, m, year);
  }

  lemma {:induction false} InPeriodOfYear(txs: seq<Transaction>, m: Month, year: int)
    ensures InPeriod(InYear(txs, year), m, year) == InPeriod(txs, m, year)
    decreases |txs|
  {
    if txs != [] {
      var init, t := txs[..|txs| - 1], txs[|txs| - 1];
      assert txs == init + [t];
      InPeriodOfYear(init, m, year);
      if t.date.year == year {
        InPeriodSnoc(InYear(init, year), t, m, year);
      } else {
        assert InYear(txs, year) == InYear(init, year) + [];
        assert InYear(init, year) + [] == InYear(init, year);
        assert InPeriod(txs, m, year) == InPeriod(init, m, year) + [];
      }
    }
  }

  /** A transaction of another year inserted anywhere in the list changes no point of the series. */
  lemma InsertedOtherYearIgnored(txs: seq<Transaction>, k: nat, t: Transaction, m: Month, year: int)
    requires k <= |txs| && t.date.year != year
    ensures MonthPoint(txs[..k] + [t] + txs[k..], m, year) == MonthPoint(txs, m, year)
  {
    var with := txs[..k] + [t] + txs[k..];
    InYearAppend(txs[..k] + [t], txs[k..], year);
    InYearAppend(txs[..k], [t], year);
    InYearAppend(txs[..k], txs[k..], year);
    assert InYear([t], year) == [] by {
      assert [t][..0] == [];
    }
    assert txs[..k] + txs[k..] == txs;
    assert InYear(with, year) == InYear(txs, year) by {
      assert InYear(txs[..k] + [t], year) == InYear(txs[..k], year) + [];
      assert InYear(txs[..k], year) + [] == InYear(txs[..k], year);
    }
    OtherYearIgnored(with, m, year);
    OtherYearIgnored(txs, m, year);
  }

  lemma {:induction false} InYearAppend(a: seq<Transaction>, b: seq<Transaction>, year: int)
    ensures InYear(a + b, year) == InYear(a, year) + InYear(b, year)
    decreases |b|
  {
    if b == [] {
      assert a + b == a;
    } else {
      var init, t := b[..|b| - 1], b[|b| - 1];
      assert a + b == (a + init) + [t];
      assert b == init + [t];
      InYearAppend(a, init, year);
      InYearSnoc(a + init, t, year);
      InYearSnoc(init, t, year);
    }
  }

  // ---------------------------------------------------------------------------------------
  // calculateRevenueDistribution
  // ---------------------------------------------------------------------------------------

  datatype PieSlice = PieSlice(name: string, value: int)

  /** Category names of the given transactions, in order. */
  function NamesOf(txs: seq<Transaction>): seq<string>
  {
    if txs == [] then [] else NamesOf(txs[..|txs| - 1]) + [txs[|txs| - 1].category.name]
  }

  /** The names in order of first occurrence, each once. */
  function Distinct(names: seq<string>): seq<string>
  {
    if names == [] then []
    else
      var d := Distinct(names[..|names| - 1]);
      var n := names[|names| - 1];
      if n in d then d else d + [n]
  }

  /** `Distinct` lists every given name, only given names, and none twice. */
  lemma {:induction false} DistinctNames(names: seq<string>)
    ensures forall i, j :: 0 <= i < j < |Distinct(names)| ==> Distinct(names)[i] != Distinct(names)[j]
    ensures forall n :: n in Distinct(names) <==> n in names
    decreases |names|
  {
    if names != [] {
      var init, n := names[..|names| - 1], names[|names| - 1];
      assert names == init + [n];
      DistinctNames(init);
    }
  }

  /** The names the distribution has one entry for: revenue categories, first occurrence first. */
  function RevenueCategoryNames(txs: seq<Transaction>): seq<string>
  {
    Distinct(NamesOf(OfKind(txs, Receita)))
  }

  /**
   * `calculateRevenueDistribution`: the revenue transactions are folded into a dictionary keyed
   * by category name; keys keep the order in which they were first set. There is one slice per
   * distinct revenue category name, holding the revenue booked under that name, and the slices
   * add up to the revenue of the whole input (which is not restricted to a year).
   */
  method RevenueDistribution(txs: seq<Transaction>) returns (slices: seq<PieSlice>)
    ensures |slices| == |RevenueCategoryNames(txs)|
    ensures forall k :: 0 <= k < |slices| ==>
      slices[k].name == RevenueCategoryNames(txs)[k]
      && slices[k].value == SumAmounts(WithName(OfKind(txs, Receita), slices[k].name))
    ensures SumValues(slices) == Revenue(txs)
  {
    var revenueTxs := OfKind(txs, Receita);
    var order, byName := FoldByName(revenueTxs);
    slices := seq(|order|, k requires 0 <= k < |order| => PieSlice(order[k], byName[order[k]]));
    SlicesOfFold(order, byName, revenueTxs, slices);
  }

  /**
   * The `reduce` of `calculateRevenueDistribution`: each transaction's amount is added to the
   * entry of its category name, and the names are kept in the order they were first set.
   */
  method FoldByName(revenueTxs: seq<Transaction>) returns (order: seq<string>, byName: map<string, int>)
    ensures order == Distinct(NamesOf(revenueTxs))
    ensures forall n :: n in byName <==> n in order
    ensures forall n :: n in byName ==> byName[n] == SumAmounts(WithName(revenueTxs, n))
  {
    byName, order := map[], [];
    for i := 0 to |revenueTxs|
      invariant Folded(order, byName, revenueTxs[..i])
    {
      var t := revenueTxs[i];
      var name := t.category.name;
      FoldStep(order, byName, revenueTxs[..i], t);
      if name !in byName {
        order := order + [name];
      }
      byName := Accumulate(byName, name, t.amount);
      FoldedNext(order, byName, revenueTxs, i);
    }
    assert revenueTxs[..|revenueTxs|] == revenueTxs;
  }

  /** Folding the prefix before position `i` and then the entry at `i` folds the prefix through `i`. */
  lemma FoldedNext(order: seq<string>, byName: map<string, int>, txs: seq<Transaction>, i: int)
    requires 0 <= i < |txs| && Folded(order, byName, txs[..i] + [txs[i]])
    ensures Folded(order, byName, txs[..i + 1])
  {
    assert txs[..i] + [txs[i]] == txs[..i + 1];
  }

  /**
   * One step of the fold: an entry that is missing (or falsy, that is zero) is first set to
   * zero, then the amount is added to it.
   */
  function Accumulate(acc: map<string, int>, name: string, amount: int): (r: map<string, int>)
    ensures r == acc[name := (if name in acc then acc[name] else 0) + amount]
  {
    var started := if name !in acc || acc[name] == 0 then acc[name := 0] else acc;
    started[name := started[name] + amount]
  }

  /** What the finished fold gives: one slice per distinct name, in order, adding up to the total. */
  lemma SlicesOfFold(order: seq<string>, byName: map<string, int>, revenueTxs: seq<Transaction>, slices: seq<PieSlice>)
    requires Folded(order, byName, revenueTxs)
    requires |slices| == |order|
    requires forall k :: 0 <= k < |order| ==> slices[k] == PieSlice(order[k], byName[order[k]])
    ensures |slices| == |Distinct(NamesOf(revenueTxs))|
    ensures forall k :: 0 <= k < |slices| ==>
      slices[k].name == Distinct(NamesOf(revenueTxs))[k]
      && slices[k].value == SumAmounts(WithName(revenueTxs, slices[k].name))
    ensures SumValues(slices) == SumAmounts(revenueTxs)
  {
    SlicesTotal(slices, order, revenueTxs);
    DistributionSum(revenueTxs);
  }

  /**
   * The dictionary state after folding the transactions `done`: the keys in insertion order,
   * and each key's running sum.
   */
  ghost predicate Folded(order: seq<string>, byName: map<string, int>, done: seq<Transaction>)
  {
    && order == Distinct(NamesOf(done))
    && (forall n :: n in byName <==> n in order)
    && (forall n :: n in byName ==> byName[n] == SumAmounts(WithName(done, n)))
  }

  /** Folding one more transaction: a new name is appended to the order, its sum grows by the amount. */
  lemma FoldStep(order: seq<string>, byName: map<string, int>, done: seq<Transaction>, t: Transaction)
    requires Folded(order, byName, done)
    ensures var name := t.category.name;
      Folded(if name in byName then order else order + [name],
             byName[name := (if name in byName then byName[name] else 0) + t.amount],
             done + [t])
  {
    var name := t.category.name;
    var order' := if name in byName then order else order + [name];
    var byName' := byName[name := (if name in byName then byName[name] else 0) + t.amount];
    FoldOrder(order, byName, done, t);
    FoldSums(order, byName, done, t);
    assert forall n :: n in byName' <==> n in order';
  }

  lemma FoldOrder(order: seq<string>, byName: map<string, int>, done: seq<Transaction>, t: Transaction)
    requires order == Distinct(NamesOf(done))
    requires forall n :: n in byName <==> n in order
    ensures (if t.category.name in byName then order else order + [t.category.name]) == Distinct(NamesOf(done + [t]))
  {
    NamesOfSnoc(done, t);
    DistinctSnoc(NamesOf(done), t.category.name);
  }

  lemma FoldSums(order: seq<string>, byName: map<string, int>, done: seq<Transaction>, t: Transaction)
    requires order == Distinct(NamesOf(done))
    requires forall n :: n in byName <==> n in order
    requires forall n :: n in byName ==> byName[n] == SumAmounts(WithName(done, n))
    ensures var name := t.category.name;
      var byName' := byName[name := (if name in byName then byName[name] else 0) + t.amount];
      forall n :: n in byName' ==> byName'[n] == SumAmounts(WithName(done + [t], n))
  {
    var name := t.category.name;
    var byName' := byName[name := (if name in byName then byName[name] else 0) + t.amount];
    forall n | n in byName'
      ensures byName'[n] == SumAmounts(WithName(done + [t], n))
    {
      WithNameSnoc(done, t, n);
      SumAmountsMaybe(WithName(done, n), t, name == n);
      if n == name && name !in byName {
        DistinctNames(NamesOf(done));
        NameAbsentSumZero(done, name);
      }
    }
  }

  lemma NamesOfSnoc(s: seq<Transaction>, t: Transaction)
    ensures NamesOf(s + [t]) == NamesOf(s) + [t.category.name]
  {
    assert (s + [t])[..|s + [t]| - 1] == s;
  }

  lemma DistinctSnoc(names: seq<string>, n: string)
    ensures Distinct(names + [n]) == if n in Distinct(names) then Distinct(names) else Distinct(names) + [n]
  {
    assert (names + [n])[..|names + [n]| - 1] == names;
  }

  /** Sum of the slice values. */
  function SumValues(slices: seq<PieSlice>): int
  {
    if slices == [] then 0 else SumValues(slices[..|slices| - 1]) + slices[|slices| - 1].value
  }

  /** Revenue per name, summed over a list of names. */
  function SumPerName(names: seq<string>, txs: seq<Transaction>): int
  {
    if names == [] then 0
    else SumPerName(names[..|names| - 1], txs) + SumAmounts(WithName(txs, names[|names| - 1]))
  }

  lemma {:induction false} NameAbsentSumZero(txs: seq<Transaction>, name: string)
    requires name !in NamesOf(txs)
    ensures WithName(txs, name) == []
    decreases |txs|
  {
    if txs != [] {
      var init, t := txs[..|txs| - 1], txs[|txs| - 1];
      assert txs == init + [t];
      NamesOfSnoc(init, t);
      WithNameSnoc(init, t, name);
      NameAbsentSumZero(init, name);
    }
  }

  lemma {:induction false} SlicesTotal(slices: seq<PieSlice>, order: seq<string>, txs: seq<Transaction>)
    requires |slices| == |order|
    requires forall k :: 0 <= k < |slices| ==> slices[k].value == SumAmounts(WithName(txs, order[k]))
    ensures SumValues(slices) == SumPerName(order, txs)
    decreases |slices|
  {
    if slices != [] {
      SlicesTotal(slices[..|slices| - 1], order[..|order| - 1], txs);
    }
  }

  /** Adding one transaction to the input adds its amount to exactly the entry of its name. */
  lemma {:induction false} SumPerNameSnoc(names: seq<string>, txs: seq<Transaction>, t: Transaction)
    requires forall i, j :: 0 <= i < j < |names| ==> names[i] != names[j]
    ensures SumPerName(names, txs + [t]) ==
            SumPerName(names, txs) + (if t.category.name in names then t.amount else 0)
    decreases |names|
  {
    if names != [] {
      var init, n := names[..|names| - 1], names[|names| - 1];
      assert names == init + [n];
      SumPerNameSnoc(init, txs, t);
      WithNameSnoc(txs, t, n);
      SumAmountsMaybe(WithName(txs, n), t, t.category.name == n);
      assert t.category.name == n ==> t.category.name !in init;
    }
  }

  /** A name not seen before gets a new entry holding just the new transaction's amount. */
  lemma NewNameSum(names: seq<string>, init: seq<Transaction>, t: Transaction)
    requires t.category.name !in NamesOf(init)
    ensures SumPerName(names + [t.category.name], init + [t]) == SumPerName(names, init + [t]) + t.amount
  {
    var n := t.category.name;
    assert (names + [n])[..|names + [n]| - 1] == names;
    NameAbsentSumZero(init, n);
    WithNameSnoc(init, t, n);
    assert WithName(init + [t], n) == [] + [t];
    SumAmountsSnoc([], t);
  }

  /** Grouping by name loses nothing: the per-name sums add up to the total. */
  lemma {:induction false} DistributionSum(txs: seq<Transaction>)
    ensures SumPerName(Distinct(NamesOf(txs)), txs) == SumAmounts(txs)
    decreases |txs|
  {
    if txs != [] {
      var init, t := txs[..|txs| - 1], txs[|txs| - 1];
      assert txs == init + [t];
      DistributionSum(init);
      DistributionStep(init, t);
      SumAmountsSnoc(init, t);
    }
  }

  /** One more transaction adds its amount to the per-name sums, whether its name is new or not. */
  lemma DistributionStep(init: seq<Transaction>, t: Transaction)
    ensures SumPerName(Distinct(NamesOf(init + [t])), init + [t]) == SumPerName(Distinct(NamesOf(init)), init) + t.amount
  {
    var n := t.category.name;
    var d := Distinct(NamesOf(init));
    NamesOfSnoc(init, t);
    DistinctSnoc(NamesOf(init), n);
    DistinctNames(NamesOf(init));
    SumPerNameSnoc(d, init, t);
    if n !in d {
      NewNameSum(d, init, t);
    }
  }

  // ---------------------------------------------------------------------------------------
  // calculateCurrentMetrics
  // ---------------------------------------------------------------------------------------

  datatype Metrics = Metrics(
    receita: int, despesa: int, lucro: int, margem: real,
    receitaGrowth: real, despesaGrowth: real, lucroGrowth: real, margemGrowth: real)

  /** The month compared against: the one before, except that January is compared with June. */
  function PreviousMonth(currentMonth: Month): (r: Month)
    ensures currentMonth > 0 ==> r + 1 == currentMonth
    ensures currentMonth == 0 ==> r == 5
  {
    if currentMonth == 0 then 5 else currentMonth - 1
  }

  /** Profit as a percentage of revenue; 0 when there is no positive revenue. */
  function Margin(lucro: int, receita: int): (r: real)
    ensures receita > 0 ==> r * receita as real == lucro as real * 100.0
    ensures receita <= 0 ==> r == 0.0
  {
    if receita > 0 then (lucro as real / receita as real) * 100.0 else 0.0
  }

  /** Percentage change from `previous` to `current`; 0 when there is no positive baseline. */
  function Growth(current: int, previous: int): (r: real)
    ensures previous > 0 ==> r * previous as real == (current - previous) as real * 100.0
    ensures previous <= 0 ==> r == 0.0
  {
    if previous > 0 then ((current - previous) as real / previous as real) * 100.0 else 0.0
  }

  /**
   * `calculateCurrentMetrics`: this month's revenue, expense and profit are exactly the monthly
   * series' point for `currentMonth`; the growth figures compare with `PreviousMonth`, both
   * restricted to `currentYear`, and the margin delta is absolute, in percentage points.
   */
  function CurrentMetrics(txs: seq<Transaction>, currentYear: int, currentMonth: Month): (r: Metrics)
    ensures var cur := MonthPoint(txs, currentMonth, currentYear);
      r.receita == cur.receita && r.despesa == cur.despesa && r.lucro == cur.lucro
    ensures var prev := MonthPoint(txs, PreviousMonth(currentMonth), currentYear);
      && r.margem == Margin(r.lucro, r.receita)
      && r.receitaGrowth == Growth(r.receita, prev.receita)
      && r.despesaGrowth == Growth(r.despesa, prev.despesa)
      && r.lucroGrowth == Growth(r.lucro, prev.lucro)
      && r.margemGrowth == r.margem - Margin(prev.lucro, prev.receita)
  {
    var previousMonth := PreviousMonth(currentMonth);
    var currentTxs := InPeriod(txs, currentMonth, currentYear);
    var previousTxs := InPeriod(txs, previousMonth, currentYear);
    var currentReceita := SumAmounts(OfKind(currentTxs, Receita));
    var currentDespesa := Abs(SumAmounts(OfKind(currentTxs, Despesa)));
    var previousReceita := SumAmounts(OfKind(previousTxs, Receita));
    var previousDespesa := Abs(SumAmounts(OfKind(previousTxs, Despesa)));
    var currentLucro := currentReceita - currentDespesa;
    var previousLucro := previousReceita - previousDespesa;
    var currentMargem := Margin(currentLucro, currentReceita);
    var previousMargem := Margin(previousLucro, previousReceita);
    Metrics(
      currentReceita, currentDespesa, currentLucro, currentMargem,
      Growth(currentReceita, previousReceita),
      Growth(currentDespesa, previousDespesa),
      Growth(currentLucro, previousLucro),
      currentMargem - previousMargem)
  }

  /** A growth figure is non-negative exactly when the value did not fall below a positive baseline. */
  lemma GrowthSign(current: int, previous: int)
    ensures previous > 0 ==> (Growth(current, previous) >= 0.0 <==> current >= previous)
    ensures previous > 0 ==> (Growth(current, previous) == 0.0 <==> current == previous)
  {
    if previous > 0 {
      var g := Growth(current, previous);
      var p := previous as real;
      assert g * p == (current - previous) as real * 100.0;
      if g >= 0.0 {
        assert g * p >= 0.0 by { MulNonNegative(g, p); }
      } else {
        assert g * p < 0.0 by { MulNegativePositive(g, p); }
      }
    }
  }

  lemma MulNonNegative(x: real, y: real)
    requires x >= 0.0 && y >= 0.0
    ensures x * y >= 0.0
  {}

  lemma MulNegativePositive(x: real, y: real)
    requires x < 0.0 && y > 0.0
    ensures x * y < 0.0
  {}

  /** Since the expense figure is a magnitude, the margin never exceeds 100%. */
  lemma MarginAtMostHundred(receita: int, despesa: int, lucro: int)
    requires despesa >= 0 && lucro == receita - despesa
    ensures Margin(lucro, receita) <= 100.0
  {
  }
}
