/**
 * The infinite-scroll list state of the transactions page (src/pages/Transactions.tsx) and of
 * the categories page (src/pages/Categories.tsx), which hold the same logic over different
 * records: a list, the next page number, a loading flag and a "has more" flag. Fetching and
 * deleting on the backend are not modelled; their outcomes are parameters.
 */
module PagedList {
  import opened Wrappers
  import opened Types
  import opened Sequences

  /** The ids present in a list. */
  function Ids<T(==,!new)>(items: seq<T>, idOf: T -> int): set<int>
  {
    set i | 0 <= i < |items| :: idOf(items[i])
  }

  /**
   * The incoming items whose id is not in `seen`: in the page's order, and with every such item
   * as many times as the page holds it (repeats inside `incoming` stay).
   */
  function Unseen<T(==,!new)>(incoming: seq<T>, seen: set<int>, idOf: T -> int): (r: seq<T>)
    ensures KeepsOrder(r, incoming)
    ensures forall x :: multiset(r)[x] == if idOf(x) in seen then 0 else multiset(incoming)[x]
    ensures forall x :: x in r <==> x in incoming && idOf(x) !in seen
  {
    if incoming == [] then []
    else
      var head, rest := incoming[0], Unseen(incoming[1..], seen, idOf);
      assert incoming == [head] + incoming[1..];
      assert forall x :: x in incoming <==> x == head || x in incoming[1..];
      if idOf(head) in seen then
        KeepsOrderSkip(rest, incoming);
        rest
      else
        KeepsOrderCons(head, rest, incoming[1..]);
        [head] + rest
  }

  /**
   * The list after a non-empty page arrives: the old list unchanged in front, then the page's
   * items whose id is not listed yet, in the page's order and with the page's repeats.
   */
  function Merge<T(==,!new)>(prev: seq<T>, incoming: seq<T>, idOf: T -> int): (r: seq<T>)
    ensures |prev| <= |r| && r[..|prev|] == prev
    ensures KeepsOrder(r[|prev|..], incoming)
    ensures forall x ::
      multiset(r[|prev|..])[x] == if idOf(x) in Ids(prev, idOf) then 0 else multiset(incoming)[x]
  {
    var r := prev + Unseen(incoming, Ids(prev, idOf), idOf);
    assert r[|prev|..] == Unseen(incoming, Ids(prev, idOf), idOf);
    r
  }

  /** No two entries share an id. */
  predicate UniqueIds<T(==,!new)>(items: seq<T>, idOf: T -> int)
  {
    forall i, j :: 0 <= i < j < |items| ==> idOf(items[i]) != idOf(items[j])
  }

  /** If neither the list nor the page repeats an id, the merged list repeats none either. */
  lemma {:induction false} MergeKeepsIdsUnique<T(!new)>(prev: seq<T>, incoming: seq<T>, idOf: T -> int)
    requires UniqueIds(prev, idOf) && UniqueIds(incoming, idOf)
    ensures UniqueIds(Merge(prev, incoming, idOf), idOf)
    decreases |incoming|
  {
    if incoming != [] {
      var x, tail := incoming[0], incoming[1..];
      assert UniqueIds(tail, idOf) by {
        forall i, j | 0 <= i < j < |tail| ensures idOf(tail[i]) != idOf(tail[j]) {
          assert tail[i] == incoming[i + 1] && tail[j] == incoming[j + 1];
        }
      }
      MergeKeepsIdsUnique(prev, tail, idOf);
      var seen := Ids(prev, idOf);
      var rest := Unseen(tail, seen, idOf);
      assert Merge(prev, tail, idOf) == prev + rest;
      if idOf(x) !in seen {
        forall i | 0 <= i < |prev| ensures idOf(prev[i]) != idOf(x) {
          assert idOf(prev[i]) in seen;
        }
        forall i | 0 <= i < |rest| ensures idOf(rest[i]) != idOf(x) {
          assert rest[i] in tail;
          var k :| 0 <= k < |tail| && tail[k] == rest[i];
          assert incoming[k + 1] == rest[i];
        }
        UniqueInsert(prev, x, rest, idOf);
        assert Merge(prev, incoming, idOf) == prev + ([x] + rest);
      } else {
        assert Merge(prev, incoming, idOf) == prev + rest;
      }
    }
  }

  /** An entry whose id no other entry has can go between two parts of a list without repeated ids. */
  lemma UniqueInsert<T(!new)>(prev: seq<T>, x: T, rest: seq<T>, idOf: T -> int)
    requires UniqueIds(prev + rest, idOf)
    requires forall i :: 0 <= i < |prev| ==> idOf(prev[i]) != idOf(x)
    requires forall i :: 0 <= i < |rest| ==> idOf(rest[i]) != idOf(x)
    ensures UniqueIds(prev + ([x] + rest), idOf)
  {
    var m := prev + ([x] + rest);
    forall i, j | 0 <= i < j < |m| ensures idOf(m[i]) != idOf(m[j]) {
      if j < |prev| {
        assert m[i] == (prev + rest)[i] && m[j] == (prev + rest)[j];
      } else if j == |prev| {
        assert m[i] == prev[i];
      } else if i < |prev| {
        assert m[i] == (prev + rest)[i] && m[j] == (prev + rest)[j - 1];
      } else if i == |prev| {
        assert m[j] == rest[j - |prev| - 1];
      } else {
        assert m[i] == (prev + rest)[i - 1] && m[j] == (prev + rest)[j - 1];
      }
    }
  }

  /** An example: a page holding one record twice, merged into an empty list, adds it twice. */
  lemma PageRepeatsKept<T(!new)>(x: T, idOf: T -> int)
    ensures Merge([], [x, x], idOf) == [x, x]
  {
    assert Ids([], idOf) == {};
    assert [x, x][1..] == [x];
    assert [x][1..] == [];
    assert Unseen([x], {}, idOf) == [x];
  }

  /**
   * The list without the entries carrying `id`: the others keep their order and every copy of
   * them stays.
   */
  function RemoveId<T(==,!new)>(items: seq<T>, id: int, idOf: T -> int): (r: seq<T>)
    ensures KeepsOrder(r, items)
    ensures forall x :: multiset(r)[x] == if idOf(x) == id then 0 else multiset(items)[x]
    ensures forall x :: x in r <==> x in items && idOf(x) != id
  {
    if items == [] then []
    else
      var head, rest := items[0], RemoveId(items[1..], id, idOf);
      assert items == [head] + items[1..];
      assert forall x :: x in items <==> x == head || x in items[1..];
      if idOf(head) == id then
        KeepsOrderSkip(rest, items);
        rest
      else
        KeepsOrderCons(head, rest, items[1..]);
        [head] + rest
  }

  /** Deleting an id no entry carries changes nothing. */
  lemma {:induction false} RemoveAbsentId<T(!new)>(items: seq<T>, id: int, idOf: T -> int)
    requires forall x :: x in items ==> idOf(x) != id
    ensures RemoveId(items, id, idOf) == items
    decreases |items|
  {
    if items != [] {
      assert forall x :: x in items[1..] ==> x in items;
      RemoveAbsentId(items[1..], id, idOf);
      assert items == [items[0]] + items[1..];
    }
  }

  class PagedList<T(==,!new)> {
    const idOf: T -> int
    const loadFailedMessage: string
    const deletedMessage: string
    const deleteFailedMessage: string

    var items: seq<T>
    var currentPage: int
    var isLoading: bool
    var hasMore: bool
    var message: string
    var isError: bool
    var showDeleteModal: bool

    /** Page numbers start at 1 and only grow. */
    ghost predicate Valid()
      reads this
    {
      currentPage >= 1
    }

    constructor (idOf: T -> int, loadFailedMessage: string, deletedMessage: string, deleteFailedMessage: string)
      ensures Valid()
      ensures this.idOf == idOf && this.loadFailedMessage == loadFailedMessage
      ensures this.deletedMessage == deletedMessage && this.deleteFailedMessage == deleteFailedMessage
      ensures items == [] && currentPage == 1 && !isLoading && hasMore
      ensures message == "" && !isError && !showDeleteModal
    {
      this.idOf := idOf;
      this.loadFailedMessage := loadFailedMessage;
      this.deletedMessage := deletedMessage;
      this.deleteFailedMessage := deleteFailedMessage;
      items, currentPage, isLoading, hasMore := [], 1, false, true;
      message, isError, showDeleteModal := "", false, false;
    }

    /**
     * The first half of `loadTransactions`, up to the fetch: nothing happens while a load is in
     * progress or once the end was reached; otherwise the list is marked loading and the page to
     * fetch is returned.
     */
    method BeginLoad() returns (page: Option<int>)
      requires Valid()
      modifies this
      ensures Valid()
      ensures old(isLoading) || !old(hasMore) ==> page == None && unchanged(this)
      ensures !old(isLoading) && old(hasMore) ==>
        && page == Some(currentPage)
        && isLoading
        && items == old(items) && currentPage == old(currentPage) && hasMore
        && message == old(message) && isError == old(isError) && showDeleteModal == old(showDeleteModal)
    {
      if isLoading || !hasMore {
        return None;
      }
      isLoading := true;
      page := Some(currentPage);
    }

    /**
     * The second half of `loadTransactions`, once the fetch settles: `fetched` is the page the
     * backend returned, or None when the fetch threw. An empty page ends the scrolling, a
     * non-empty one is merged and advances the page by one, a failure only sets the message;
     * loading is over in every case.
     */
    method FinishLoad(fetched: Option<seq<T>>)
      requires Valid() && isLoading
      modifies this
      ensures Valid()
      ensures !isLoading && showDeleteModal == old(showDeleteModal)
      ensures fetched == Some([]) ==>
        && !hasMore && items == old(items) && currentPage == old(currentPage)
        && message == old(message) && isError == old(isError)
      ensures fetched.Some? && fetched.value != [] ==>
        && items == Merge(old(items), fetched.value, idOf)
        && currentPage == old(currentPage) + 1
        && hasMore == old(hasMore)
        && message == old(message) && isError == old(isError)
      ensures fetched.None? ==>
        && items == old(items) && currentPage == old(currentPage) && hasMore == old(hasMore)
        && message == loadFailedMessage && isError
    {
      match fetched {
        case None =>
          message := loadFailedMessage;
          isError := true;
        case Some(newItems) =>
          if |newItems| == 0 {
            hasMore := false;
          } else {
            var existingIds := Ids(items, idOf);
            var unique := Unseen(newItems, existingIds, idOf);
            items := items + unique;
            currentPage := currentPage + 1;
          }
      }
      isLoading := false;
    }

    /**
     * `handleConfirmDelete`: `failure` is the message of the error the backend raised, or None
     * when the record was deleted. Only a successful delete changes the list, removing every
     * entry with that id; the modal closes either way.
     */
    method ConfirmDelete(id: int, failure: Option<string>)
      requires Valid()
      modifies this
      ensures Valid()
      ensures !showDeleteModal
      ensures currentPage == old(currentPage) && isLoading == old(isLoading) && hasMore == old(hasMore)
      ensures failure.None? ==> items == RemoveId(old(items), id, idOf) && message == deletedMessage && !isError
      ensures failure.Some? ==>
        && items == old(items) && isError
        && message == (if failure.value != "" then failure.value else deleteFailedMessage)
    {
      match failure {
        case None =>
          items := RemoveId(items, id, idOf);
          message := deletedMessage;
          isError := false;
        case Some(m) =>
          message := if m != "" then m else deleteFailedMessage;
          isError := true;
      }
      showDeleteModal := false;
    }
  }

  function TransactionId(t: Transaction): int { t.id }

  function CategoryId(c: Category): int { c.id }

  /** The transactions page's list (src/pages/Transactions.tsx). */
  method NewTransactionsList() returns (l: PagedList<Transaction>)
    ensures fresh(l) && l.Valid() && l.idOf == TransactionId
    ensures l.items == [] && l.currentPage == 1 && !l.isLoading && l.hasMore
  {
    l := new PagedList(TransactionId, "Erro ao carregar transações.",
                       "Transação excluída com sucesso!", "Erro ao excluir transação.");
  }

  /** The categories page's list (src/pages/Categories.tsx). */
  method NewCategoriesList() returns (l: PagedList<Category>)
    ensures fresh(l) && l.Valid() && l.idOf == CategoryId
    ensures l.items == [] && l.currentPage == 1 && !l.isLoading && l.hasMore
  {
    l := new PagedList(CategoryId, "Erro ao carregar as categorias.",
                       "Categoria excluída com sucesso!", "Erro ao excluir categoria.");
  }
}
