/** The orders table of the admin dashboard (app/admin/dashboard/orders/page.tsx):
    which slice of the orders one page shows, how many pages there are, the
    page buttons, and the selection of rows for assigning a delivery box. */
module Orders {
  import opened SeqEdit

  datatype Order = Order(id: int, name: string, mobile: string, address: string,
                         status: string, assignedTo: string)

  // ---------------------------------------------------------------------
  // Arithmetic helpers

  function Min(a: int, b: int): int { if a < b then a else b }
  function Max(a: int, b: int): int { if a < b then b else a }

  lemma MulMono(a: int, b: int, c: nat)
    requires a <= b
    ensures a * c <= b * c
  {
  }

  // ---------------------------------------------------------------------
  // Array.prototype.slice

  /** Where a slice bound lands in a list of length `n`: a negative bound
      counts back from the end, and every bound is clamped to [0, n]. */
  function SliceBound(k: int, n: nat): (r: nat)
    ensures r <= n
    ensures 0 <= k ==> r == Min(k, n)
  {
    if k < 0 then Max(n + k, 0) else Min(k, n)
  }

  /** `s.slice(start, end)` */
  function Slice<T>(s: seq<T>, start: int, end: int): (r: seq<T>)
    ensures |r| <= |s|
    ensures 0 <= start <= end ==> |r| <= end - start
    ensures |r| == Max(SliceBound(end, |s|) - SliceBound(start, |s|), 0)
    ensures forall k :: 0 <= k < |r| ==> r[k] == s[SliceBound(start, |s|) + k]
  {
    var from, to := SliceBound(start, |s|), SliceBound(end, |s|);
    if from < to then s[from..to] else []
  }

  /** A negative start counts back from the end: `s.slice(-m, s.length)`
      is the last m elements. */
  lemma SliceFromEnd<T>(s: seq<T>, m: int)
    requires 0 < m <= |s|
    ensures Slice(s, -m, |s|) == s[|s| - m..]
  {
    var r := Slice(s, -m, |s|);
    assert |r| == m;
    forall k | 0 <= k < m ensures r[k] == s[|s| - m..][k] {
    }
  }

  // ---------------------------------------------------------------------
  // Pagination

  /** `Math.ceil(count / perPage)`: the least page count whose pages hold
      every order. */
  function TotalPages(count: nat, perPage: int): (r: nat)
    requires perPage > 0
    ensures count <= r * perPage < count + perPage
  {
    var q := (count + perPage - 1) / perPage;
    assert q * perPage + (count + perPage - 1) % perPage == count + perPage - 1;
    q
  }

  /** `currentItems`: the orders from `indexOfFirstItem` up to
      `indexOfLastItem`. */
  function CurrentItems(orders: seq<Order>, page: int, perPage: int): seq<Order>
  {
    var indexOfLastItem := page * perPage;
    var indexOfFirstItem := indexOfLastItem - perPage;
    Slice(orders, indexOfFirstItem, indexOfLastItem)
  }

  /** A page from 1 on shows the orders from position (page - 1) * perPage
      on, at most perPage of them, and is non-empty exactly when it is one
      of the TotalPages pages. */
  lemma CurrentItemsWindow(orders: seq<Order>, page: int, perPage: int)
    requires page >= 1 && perPage >= 1
    ensures var r := CurrentItems(orders, page, perPage);
      var first := (page - 1) * perPage;
      && |r| <= perPage
      && |r| == (if first >= |orders| then 0 else Min(perPage, |orders| - first))
      && (forall k :: 0 <= k < |r| ==> r[k] == orders[first + k])
      && (r != [] <==> page <= TotalPages(|orders|, perPage))
  {
    var n := |orders|;
    var first := (page - 1) * perPage;
    assert page * perPage - perPage == first;
    MulMono(0, page - 1, perPage);
    var t := TotalPages(n, perPage);
    if page <= t {
      MulMono(page - 1, t - 1, perPage);
      assert first < n;
    } else {
      MulMono(t, page - 1, perPage);
      assert first >= n;
    }
  }

  /** Every order is shown on exactly one page within the page count: the
      one numbered position / perPage + 1, at position position % perPage. */
  lemma OrderOnItsPage(orders: seq<Order>, perPage: int, k: nat)
    requires perPage >= 1 && k < |orders|
    ensures var page := k / perPage + 1;
      && 1 <= page <= TotalPages(|orders|, perPage)
      && k % perPage < |CurrentItems(orders, page, perPage)|
      && CurrentItems(orders, page, perPage)[k % perPage] == orders[k]
  {
    var page := k / perPage + 1;
    assert (page - 1) * perPage + k % perPage == k;
    CurrentItemsWindow(orders, page, perPage);
    assert (page - 1) * perPage <= k;
  }

  /** The previous-page button: `Math.max(prev - 1, 1)`. */
  function PrevPage(page: int): int
  {
    Max(page - 1, 1)
  }

  /** The next-page button: `Math.min(prev + 1, totalPages)`. */
  function NextPage(page: int, totalPages: int): int
  {
    Min(page + 1, totalPages)
  }

  predicate PageInRange(page: int, totalPages: int)
  {
    1 <= page <= totalPages
  }

  /** From a page in range, all four page buttons land on a page in range,
      and previous and next move by one unless already at the first or the
      last page. */
  lemma PageMovesStayInRange(page: int, totalPages: int)
    requires PageInRange(page, totalPages)
    ensures PageInRange(1, totalPages) && PageInRange(totalPages, totalPages)
    ensures PageInRange(PrevPage(page), totalPages) && PageInRange(NextPage(page, totalPages), totalPages)
    ensures PrevPage(page) == if page == 1 then 1 else page - 1
    ensures NextPage(page, totalPages) == if page == totalPages then page else page + 1
  {
  }

  /** With no orders there are no pages: next, from page 1, and last take
      the page to 0, and next never goes above 0. */
  lemma NoOrdersNoPages(perPage: int, page: int)
    requires perPage > 0
    ensures TotalPages(0, perPage) == 0
    ensures NextPage(1, TotalPages(0, perPage)) == 0
    ensures NextPage(page, TotalPages(0, perPage)) <= 0
  {
  }

  /** Page 0 shows nothing: its window is [-perPage, 0), whose negative start
      counts back from the end but whose end is 0. */
  lemma PageZeroEmpty(orders: seq<Order>, perPage: int)
    requires perPage > 0
    ensures CurrentItems(orders, 0, perPage) == []
  {
  }

  /** A larger page size can leave the current page past the last page:
      with 11 orders at 10 per page, page 2 shows order 11; at 20 per page
      there is one page and page 2 shows nothing. */
  lemma PerPageChangeKeepsPage()
    ensures var orders := seq(11, k requires 0 <= k < 11 => Order(k + 1, "", "", "", "", ""));
      && CurrentItems(orders, 2, 10) == [orders[10]]
      && TotalPages(11, 20) == 1
      && CurrentItems(orders, 2, 20) == []
  {
    var orders := seq(11, k requires 0 <= k < 11 => Order(k + 1, "", "", "", "", ""));
    CurrentItemsWindow(orders, 2, 10);
    CurrentItemsWindow(orders, 2, 20);
  }

  // ---------------------------------------------------------------------
  // Row selection

  /** An order id is its own key, for SeqEdit's by-key filter. */
  function IntKey(x: int): int { x }

  predicate NoDuplicates(s: seq<int>)
  {
    forall i, j :: 0 <= i < j < |s| ==> s[i] != s[j]
  }

  /** `handleRowSelection`: drops `id` when selected, appends it otherwise. */
  function ToggleRow(selected: seq<int>, id: int): (r: seq<int>)
    ensures id in r <==> id !in selected
    ensures forall x :: x != id ==> (x in r <==> x in selected)
    ensures NoDuplicates(selected) ==> NoDuplicates(r)
  {
    if id in selected then
      var r := Without(selected, IntKey, id);
      assert NoDuplicates(selected) ==> NoDuplicates(r) by {
        if NoDuplicates(selected) {
          WithoutKeepsDistinct(selected, IntKey, id, IntKey);
        }
      }
      r
    else
      selected + [id]
  }

  /** Toggling the same row twice restores which rows are selected, and when
      the row was not selected, restores the very list. */
  lemma ToggleRowTwice(selected: seq<int>, id: int)
    ensures forall x :: x in ToggleRow(ToggleRow(selected, id), id) <==> x in selected
    ensures id !in selected ==> ToggleRow(ToggleRow(selected, id), id) == selected
  {
    if id !in selected {
      WithoutAppend(selected, [id], IntKey, id);
      assert Without([id], IntKey, id) == [];
    }
  }

  /** The ids of the rows on a page. */
  function RowIds(items: seq<Order>): (r: seq<int>)
    ensures |r| == |items|
    ensures forall k :: 0 <= k < |items| ==> r[k] == items[k].id
  {
    seq(|items|, k requires 0 <= k < |items| => items[k].id)
  }

  predicate IdsDistinct(items: seq<Order>)
  {
    forall i, j :: 0 <= i < j < |items| ==> items[i].id != items[j].id
  }

  /** `handleSelectAllRows`: checking selects exactly the page's rows, in page
      order; unchecking selects none. */
  function SelectAll(checked: bool, items: seq<Order>): (r: seq<int>)
    ensures checked ==> |r| == |items| && forall k :: 0 <= k < |items| ==> r[k] == items[k].id
    ensures !checked ==> r == []
    ensures IdsDistinct(items) ==> NoDuplicates(r)
  {
    if checked then RowIds(items) else []
  }

  /** The header checkbox as written at line 214: some row is shown and the
      selection is as long as the page. */
  predicate HeaderChecked(items: seq<Order>, selected: seq<int>)
  {
    |items| > 0 && |selected| == |items|
  }

  /** The header checkbox as the row checkboxes (line 231) mean it: some row
      is shown and every shown row is selected. */
  predicate AllRowsChecked(items: seq<Order>, selected: seq<int>)
  {
    |items| > 0 && forall k :: 0 <= k < |items| ==> items[k].id in selected
  }

  /** After select-all the header reads checked on a non-empty page; after
      unselect-all it reads unchecked. */
  lemma SelectAllChecksHeader(items: seq<Order>)
    ensures AllRowsChecked(items, SelectAll(true, items)) <==> |items| > 0
    ensures !AllRowsChecked(items, SelectAll(false, items))
    ensures HeaderChecked(items, SelectAll(true, items)) <==> |items| > 0
    ensures !HeaderChecked(items, SelectAll(false, items))
  {
    if |items| > 0 {
      var r := SelectAll(true, items);
      assert forall k :: 0 <= k < |items| ==> items[k].id == r[k];
      assert items[0].id !in SelectAll(false, items);
    }
  }

  /** Unselecting one row of the page leaves the header unchecked. */
  lemma ToggleOffUnchecksHeader(items: seq<Order>, selected: seq<int>, k: nat)
    requires k < |items| && items[k].id in selected
    ensures !AllRowsChecked(items, ToggleRow(selected, items[k].id))
  {
  }

  /** The elements of a list without duplicates are as many as its length. */
  lemma {:induction false} DistinctCount(s: seq<int>)
    requires NoDuplicates(s)
    ensures |set x | x in s| == |s|
  {
    if s != [] {
      DistinctCount(s[1..]);
      assert (set x | x in s) == (set x | x in s[1..]) + {s[0]};
      assert s[0] !in s[1..];
    }
  }

  /** As long as every selected row is on the current page, the two readings
      of the header agree. */
  lemma HeaderAgreesOnPageSelection(items: seq<Order>, selected: seq<int>)
    requires IdsDistinct(items) && NoDuplicates(selected)
    requires forall x :: x in selected ==> x in RowIds(items)
    ensures HeaderChecked(items, selected) <==> AllRowsChecked(items, selected)
  {
    var ids := RowIds(items);
    var shown := set x | x in ids;
    var chosen := set x | x in selected;
    DistinctCount(selected);
    assert NoDuplicates(ids);
    DistinctCount(ids);
    assert chosen <= shown;
    assert |shown - chosen| == |shown| - |chosen|;
    if HeaderChecked(items, selected) {
      assert shown - chosen == {};
      forall k | 0 <= k < |items| ensures items[k].id in selected {
        assert ids[k] in shown;
      }
    }
    if AllRowsChecked(items, selected) {
      forall x | x in shown ensures x in chosen {
        var k :| 0 <= k < |ids| && ids[k] == x;
      }
      assert shown == chosen;
    }
  }

  /** The header as written misreads a selection kept from another page:
      select order 1 on page 1, go to page 2 where only order 11 is shown,
      and the header reads checked though order 11 is not selected. */
  lemma HeaderCheckedMisreadsOtherPage()
    ensures var orders := seq(11, k requires 0 <= k < 11 => Order(k + 1, "", "", "", "", ""));
      var page := CurrentItems(orders, 2, 10);
      var selected := ToggleRow([], 1);
      && page == [orders[10]]
      && HeaderChecked(page, selected)
      && !AllRowsChecked(page, selected)
  {
    var orders := seq(11, k requires 0 <= k < 11 => Order(k + 1, "", "", "", "", ""));
    CurrentItemsWindow(orders, 2, 10);
    assert ToggleRow([], 1) == [1];
  }

  // ---------------------------------------------------------------------
  // The page's state

  class OrdersView {
    const orders: seq<Order>
    var currentPage: int
    var itemsPerPage: int
    var selectedRows: seq<int>
    var assigneeName: string
    var isModalOpen: bool

    ghost predicate Valid()
      reads this
    {
      itemsPerPage > 0 && IdsDistinct(orders) && NoDuplicates(selectedRows)
    }

    function Pages(): nat
      reads this
      requires itemsPerPage > 0
    {
      TotalPages(|orders|, itemsPerPage)
    }

    function Shown(): seq<Order>
      reads this
    {
      CurrentItems(orders, currentPage, itemsPerPage)
    }

    /** The header checkbox's state (read as every shown row being selected). */
    function SelectAllChecked(): bool
      reads this
    {
      AllRowsChecked(Shown(), selectedRows)
    }

    /** The page's initial state over the orders it lists, whose ids are
        distinct. */
    constructor (orders: seq<Order>)
      requires IdsDistinct(orders)
      ensures Valid() && this.orders == orders
      ensures currentPage == 1 && itemsPerPage == 10 && selectedRows == []
      ensures assigneeName == "" && !isModalOpen
    {
      this.orders := orders;
      currentPage := 1;
      itemsPerPage := 10;
      selectedRows := [];
      assigneeName := "";
      isModalOpen := false;
    }

    /** `handleRowSelection` */
    method ToggleRowSelection(id: int)
      requires Valid()
      modifies this
      ensures Valid()
      ensures selectedRows == ToggleRow(old(selectedRows), id)
      ensures currentPage == old(currentPage) && itemsPerPage == old(itemsPerPage)
      ensures assigneeName == old(assigneeName) && isModalOpen == old(isModalOpen)
    {
      selectedRows := ToggleRow(selectedRows, id);
    }

    /** `handleSelectAllRows` */
    method SelectAllRows(checked: bool)
      requires Valid()
      modifies this
      ensures Valid()
      ensures selectedRows == SelectAll(checked, old(Shown()))
      ensures checked ==> SelectAllChecked() == (Shown() != [])
      ensures !checked ==> !SelectAllChecked()
      ensures currentPage == old(currentPage) && itemsPerPage == old(itemsPerPage)
      ensures assigneeName == old(assigneeName) && isModalOpen == old(isModalOpen)
    {
      var items := Shown();
      assert IdsDistinct(items) by {
        if currentPage >= 1 {
          CurrentItemsWindow(orders, currentPage, itemsPerPage);
        }
      }
      SelectAllChecksHeader(items);
      selectedRows := SelectAll(checked, items);
    }

    /** `handleAssignDeliveryBox`: closes the dialog and clears the assignee
        and the selection. */
    method AssignDeliveryBox()
      requires Valid()
      modifies this
      ensures Valid()
      ensures selectedRows == [] && assigneeName == "" && !isModalOpen
      ensures currentPage == old(currentPage) && itemsPerPage == old(itemsPerPage)
    {
      isModalOpen := false;
      assigneeName := "";
      selectedRows := [];
    }

    /** The first-page button. */
    method GoFirst()
      requires Valid()
      requires currentPage != 1  // `disabled={currentPage === 1}`; on page 1 the click would change nothing
      modifies this`currentPage
      ensures Valid()
      ensures currentPage == 1
    {
      currentPage := 1;
    }

    /** The previous-page button. */
    method GoPrevious()
      requires Valid()
      requires currentPage != 1  // `disabled={currentPage === 1}`; on page 1 the click would change nothing
      modifies this`currentPage
      ensures Valid()
      ensures currentPage == PrevPage(old(currentPage))
      ensures PageInRange(old(currentPage), Pages()) ==> PageInRange(currentPage, Pages())
    {
      currentPage := PrevPage(currentPage);
    }

    /** The next-page button. */
    method GoNext()
      requires Valid()
      requires currentPage != Pages()  // `disabled={currentPage === totalPages}`; there the click would change nothing
      modifies this`currentPage
      ensures Valid()
      ensures currentPage == NextPage(old(currentPage), Pages())
      ensures PageInRange(old(currentPage), Pages()) ==> PageInRange(currentPage, Pages())
    {
      currentPage := NextPage(currentPage, Pages());
    }

    /** The last-page button. */
    method GoLast()
      requires Valid()
      requires currentPage != Pages()  // `disabled={currentPage === totalPages}`; there the click would change nothing
      modifies this`currentPage
      ensures Valid()
      ensures currentPage == Pages()
    {
      currentPage := Pages();
    }

    /** The rows-per-page select, whose options are 10, 20 and 50. The page
        number is kept as it is, even past the new last page
        (PerPageChangeKeepsPage). */
    method SetItemsPerPage(perPage: int)
      requires Valid()
      requires perPage == 10 || perPage == 20 || perPage == 50
      modifies this`itemsPerPage
      ensures Valid()
      ensures itemsPerPage == perPage
    {
      itemsPerPage := perPage;
    }
  }
}
