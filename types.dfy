/** The records that flow from the backend into the dashboard (src/types/transactions.ts). */
module Types {
  import opened Wrappers

  /** A category is either revenue ("receita") or expense ("despesa"). */
  datatype CategoryType = Receita | Despesa

  datatype Category = Category(id: int, name: string, color: string, kind: CategoryType)

  /** A calendar month index as JavaScript's `getMonth()` returns it: 0 is January. */
  type Month = m: int | 0 <= m < 12

  /**
   * A transaction date, already parsed: the local calendar year and month, and the
   * instant in milliseconds that `getTime()` yields (the key the dashboard sorts by).
   */
  datatype Date = Date(year: int, month: Month, time: int)

  /** Amounts are whole cents; the stored sign is not trusted, the category decides the direction. */
  datatype Transaction = Transaction(
    id: int,
    date: Date,
    description: string,
    category: Category,
    amount: int,
    status: string,
    paymentMethod: Option<string>)

  function Abs(x: int): (r: nat)
    ensures r == x || r == -x
  {
    if x < 0 then -x else x
  }
}
