/**
 * The deterministic parts of the transaction service (src/services/transactionService.ts):
 * normalising a joined row into a Transaction, the row range of a page, and the rows built
 * for an insert or an edit. The backend calls themselves are not modelled; what they return
 * (the category list, the signed-in user's id) is passed in.
 */
module TransactionService {
  import opened Wrappers
  import opened Types

  // ---------------------------------------------------------------------------------------
  // mapTransaction
  // ---------------------------------------------------------------------------------------

  /** The joined `categories` column: missing (null or undefined), one record, or an array. */
  datatype CategoriesField = NoCategory | Single(category: Category) | Many(categories: seq<Category>)

  /** A row as the backend returns it; `paymentMethod` is None for both null and a missing field. */
  datatype TransactionRow = TransactionRow(
    id: int,
    description: string,
    amount: int,
    date: Date,
    status: string,
    paymentMethod: Option<string>,
    categories: CategoriesField)

  /** The category a transaction gets when its row has none. */
  const Uncategorized := Category(0, "Sem categoria", "#ccc", Despesa)

  /**
   * `mapTransaction`: the scalar fields are copied, the payment method defaults to null, and the
   * category is the joined record, the first of a joined array, or the placeholder when there is
   * none.
   */
  function MapTransaction(row: TransactionRow): (t: Transaction)
    ensures t.id == row.id && t.description == row.description && t.amount == row.amount
    ensures t.date == row.date && t.status == row.status && t.paymentMethod == row.paymentMethod
    ensures row.categories.Single? ==> t.category == row.categories.category
    ensures row.categories.Many? && |row.categories.categories| > 0 ==> t.category == row.categories.categories[0]
    ensures row.categories == NoCategory || row.categories == Many([]) ==> t.category == Uncategorized
  {
    var category :=
      match row.categories
      case Many(cs) => if |cs| > 0 then cs[0] else Uncategorized
      case Single(c) => c
      case NoCategory => Uncategorized;
    Transaction(row.id, row.date, row.description, category, row.amount, row.status, row.paymentMethod)
  }

  /** The row a transaction would be fetched as, its category joined as a single record. */
  function ToRow(t: Transaction): TransactionRow
  {
    TransactionRow(t.id, t.description, t.amount, t.date, t.status, t.paymentMethod, Single(t.category))
  }

  /** Normalisation loses nothing: a transaction read back from its own row is unchanged. */
  lemma MapTransactionRoundTrip(t: Transaction)
    ensures MapTransaction(ToRow(t)) == t
  {
  }

  /** Both array shapes of the join agree with the single-record shape. */
  lemma JoinShapesAgree(row: TransactionRow, c: Category, rest: seq<Category>)
    ensures MapTransaction(row.(categories := Many([c] + rest))) == MapTransaction(row.(categories := Single(c)))
    ensures MapTransaction(row.(categories := Many([]))) == MapTransaction(row.(categories := NoCategory))
  {
  }

  // ---------------------------------------------------------------------------------------
  // getTransaction20: page arithmetic
  // ---------------------------------------------------------------------------------------

  const PageSize := 20

  /** Inclusive row indices `from .. to`, as handed to the backend's range query. */
  datatype RowRange = RowRange(from: int, to: int)

  /** The rows of page `page` (1-based): twenty consecutive indices starting at (page - 1) * 20. */
  function PageRange(page: int): (r: RowRange)
    ensures r.from == (page - 1) * PageSize
    ensures r.to - r.from + 1 == PageSize
  {
    var from := (page - 1) * PageSize;
    RowRange(from, from + PageSize - 1)
  }

  /** Consecutive pages are adjacent: the next page starts right after this one ends. */
  lemma ConsecutivePagesAdjacent(page: int)
    ensures PageRange(page + 1).from == PageRange(page).to + 1
  {
  }

  /** Distinct pages share no row. */
  lemma PagesDisjoint(p: int, q: int)
    requires p < q
    ensures PageRange(p).to < PageRange(q).from
  {
  }

  /** Every row index from 0 on is on some page numbered from 1. */
  lemma EveryRowOnSomePage(i: nat)
    ensures exists page: int :: page >= 1 && PageRange(page).from <= i <= PageRange(page).to
  {
    var page := i / PageSize + 1;
    assert PageRange(page).from <= i <= PageRange(page).to;
  }

  // ---------------------------------------------------------------------------------------
  // insertTransactions: the rows sent
  // ---------------------------------------------------------------------------------------

  /** A spreadsheet row to import; `categoryId` and `userId` are present in the type but unused. */
  datatype InsertTransaction = InsertTransaction(
    date: Date,
    description: string,
    categoryId: Option<int>,
    categoryName: Option<string>,
    amount: int,
    status: string,
    userId: Option<string>)

  datatype InsertRow = InsertRow(
    date: Date, description: string, amount: nat, status: string, categoryId: int, userId: Option<string>)

  /** The category id used when no category carries the imported name. */
  const FallbackCategoryId := 6

  /** The first category whose name equals the given one, if any. */
  function FindByName(categories: seq<Category>, name: Option<string>): (r: Option<Category>)
    ensures r.Some? ==>
      exists i :: (0 <= i < |categories| && categories[i] == r.value && Some(r.value.name) == name
                   && forall j :: 0 <= j < i ==> Some(categories[j].name) != name)
    ensures r.None? <==> forall c :: c in categories ==> Some(c.name) != name
  {
    if categories == [] then None
    else if Some(categories[0].name) == name then Some(categories[0])
    else
      var r := FindByName(categories[1..], name);
      assert forall c :: c in categories <==> c == categories[0] || c in categories[1..];
      if r.Some? then
        ghost var i :| 0 <= i < |categories[1..]| && categories[1..][i] == r.value
          && Some(r.value.name) == name && forall j :: 0 <= j < i ==> Some(categories[1..][j].name) != name;
        assert categories[i + 1] == r.value;
        r
      else r
  }

  /** The row inserted for one imported transaction. */
  function FormatRow(t: InsertTransaction, categories: seq<Category>, userId: Option<string>): (r: InsertRow)
    ensures r.date == t.date && r.description == t.description && r.status == t.status
    ensures r.userId == userId
    ensures r.amount == t.amount || r.amount == -t.amount
    ensures (forall c :: c in categories ==> Some(c.name) != t.categoryName) ==> r.categoryId == FallbackCategoryId
    ensures (exists c :: c in categories && Some(c.name) == t.categoryName) ==>
      exists c :: c in categories && Some(c.name) == t.categoryName && r.categoryId == c.id
  {
    var matched := FindByName(categories, t.categoryName);
    InsertRow(
      t.date, t.description, Abs(t.amount), t.status,
      if matched.Some? then matched.value.id else FallbackCategoryId,
      userId)
  }

  /**
   * `insertTransactions`: nothing is sent for an empty list (the user and the categories are not
   * even fetched); otherwise one row per input, in order, with the magnitude of the amount, the
   * id of the first category bearing the imported name or 6, and the signed-in user's id.
   */
  function InsertPlan(txs: seq<InsertTransaction>, categories: seq<Category>, userId: Option<string>): (r: Option<seq<InsertRow>>)
    ensures txs == [] <==> r.None?
    ensures r.Some? ==> |r.value| == |txs|
    ensures r.Some? ==> forall i :: 0 <= i < |txs| ==> r.value[i] == FormatRow(txs[i], categories, userId)
    ensures r.Some? ==> forall i :: 0 <= i < |txs| ==>
      && r.value[i].amount == Abs(txs[i].amount)
      && r.value[i].date == txs[i].date
      && r.value[i].description == txs[i].description
      && r.value[i].status == txs[i].status
      && r.value[i].userId == userId
      && ((forall c :: c in categories ==> Some(c.name) != txs[i].categoryName) ==>
            r.value[i].categoryId == FallbackCategoryId)
      && ((exists c :: c in categories && Some(c.name) == txs[i].categoryName) ==>
            exists c :: c in categories && Some(c.name) == txs[i].categoryName && r.value[i].categoryId == c.id)
  {
    if txs == [] then None
    else Some(seq(|txs|, i requires 0 <= i < |txs| => FormatRow(txs[i], categories, userId)))
  }

  /** The id an imported row gets is that of the first category with its name. */
  lemma CategoryIdIsFirstMatch(t: InsertTransaction, categories: seq<Category>, userId: Option<string>, i: nat)
    requires i < |categories| && Some(categories[i].name) == t.categoryName
    requires forall j :: 0 <= j < i ==> Some(categories[j].name) != t.categoryName
    ensures FormatRow(t, categories, userId).categoryId == categories[i].id
  {
    var r := FindByName(categories, t.categoryName);
    assert categories[i] in categories;
    var k :| 0 <= k < |categories| && categories[k] == r.value && Some(r.value.name) == t.categoryName
      && forall j :: 0 <= j < k ==> Some(categories[j].name) != t.categoryName;
    assert k == i;
  }

  /** The sign of an imported amount never reaches the database. */
  lemma InsertIgnoresSign(t: InsertTransaction, categories: seq<Category>, userId: Option<string>)
    ensures FormatRow(t.(amount := -t.amount), categories, userId) == FormatRow(t, categories, userId)
    ensures FormatRow(t, categories, userId).amount >= 0
  {
  }

  // ---------------------------------------------------------------------------------------
  // editTransaction: the update sent
  // ---------------------------------------------------------------------------------------

  datatype EditTransaction = EditTransaction(
    date: Date, description: string, categoryId: Option<int>, amount: int, status: string)

  datatype EditRow = EditRow(
    date: Date, description: string, amount: nat, status: string, categoryId: Option<int>)

  /** `editTransaction`'s update: the fields as given, except that the amount is its magnitude. */
  function EditPayload(t: EditTransaction): (r: EditRow)
    ensures r.amount == t.amount || r.amount == -t.amount
    ensures r.date == t.date && r.description == t.description && r.status == t.status && r.categoryId == t.categoryId
  {
    EditRow(t.date, t.description, Abs(t.amount), t.status, t.categoryId)
  }

  /** Editing writes the same row whatever the sign of the amount entered. */
  lemma EditIgnoresSign(t: EditTransaction)
    ensures EditPayload(t.(amount := -t.amount)) == EditPayload(t)
  {
  }
}
