/**
 * The outbound document screen `OutboundListComponent`
 * (outbound-list.component.ts): the order list shown beside the search
 * panel, the selected order's header, and the editing of its line items.
 */
module OutboundList {
  import opened Wrappers
  import opened Seqs

  /** A document line; `qty` and `price` are whole numbers here. */
  datatype LineItem = LineItem(itemCode: string, itemName: string, qty: int, quality: string, price: int)

  datatype Customer = Customer(name: string, address: string, contact: string, phone: string)

  /** An order's `details`, the record the header is copied from. */
  datatype Details = Details(
    outboundNumber: string, status: string, kind: string, quality: string, remark: string,
    soNumber: string, soDate: string, deliveryNote: string, customer: Customer,
    items: Option<seq<LineItem>>)

  /** A row of the outbound list. */
  datatype OutboundOrder = OutboundOrder(
    id: string, customer: string, date: string, status: string, itemCount: int, details: Details)

  /** The item the dialog starts from: `{ itemCode: '', itemName: '', qty: 0, quality: 'Good', price: 0 }`. */
  const BlankItem: LineItem := LineItem("", "", 0, "Good", 0)

  /** The two sample orders the screen starts with. */
  const SampleOrders: seq<OutboundOrder> := [
    OutboundOrder("OUT-001", "Sakura Restaurant", "2025-09-01", "Shipped", 8,
      Details("OUT-001", "Shipped", "Normal", "Good", "จัดส่งตรงเวลา", "SO-SR-001", "2025-08-30", "DN-SR-2025-001",
        Customer("Sakura Restaurant", "789 ถนนสุขุมวิท แขวงคลองตัน เขตวัฒนา กรุงเทพฯ 10110", "คุณมานะ รักงาน", "02-345-6789"),
        Some([LineItem("SR-001", "ปลาแซลมอน", 50, "Good", 450),
              LineItem("SR-002", "ข้าวญี่ปุ่น", 100, "Good", 250),
              LineItem("SR-003", "ซอสเทอริยากิ", 30, "Good", 180)]))),
    OutboundOrder("OUT-002", "Thai Express", "2025-09-03", "Pending", 5,
      Details("OUT-002", "Pending", "Express", "Good", "รอจัดส่ง", "SO-TE-002", "2025-09-01", "DN-TE-2025-002",
        Customer("Thai Express", "321 ถนนสีลม แขวงสีลม เขตบางรัก กรุงเทพฯ 10500", "คุณสมหญิง ใจเย็น", "02-456-7890"),
        Some([LineItem("TE-001", "เครื่องแกง", 100, "Good", 180),
              LineItem("TE-002", "กะทิ", 150, "Good", 65)])))]

  /** The `outboundList` getter: the filtered list when it has rows, else the original one. */
  function Displayed(filtered: seq<OutboundOrder>, original: seq<OutboundOrder>): (r: seq<OutboundOrder>)
    ensures |filtered| > 0 ==> r == filtered
    ensures filtered == [] ==> r == original
  {
    if |filtered| > 0 then filtered else original
  }

  function SumQty(items: seq<LineItem>): int {
    if items == [] then 0 else SumQty(items[..|items| - 1]) + items[|items| - 1].qty
  }

  function SumValue(items: seq<LineItem>): int {
    if items == [] then 0 else SumValue(items[..|items| - 1]) + items[|items| - 1].qty * items[|items| - 1].price
  }

  /**
   * `totalQuantity`: 0 without items, else the sum of `qty`; the sum may be
   * taken from the first line on as well as from the last.
   */
  function TotalQuantity(items: Option<seq<LineItem>>): (r: int)
    ensures items.None? || items.value == [] ==> r == 0
    ensures items.Some? && items.value != [] ==> r == items.value[0].qty + SumQty(items.value[1..])
  {
    if items.None? then 0
    else
      FirstLine(items.value);
      SumQty(items.value)
  }

  /** `totalValue`: 0 without items, else the sum of `qty * price`, from either end. */
  function TotalValue(items: Option<seq<LineItem>>): (r: int)
    ensures items.None? || items.value == [] ==> r == 0
    ensures items.Some? && items.value != [] ==>
      r == items.value[0].qty * items.value[0].price + SumValue(items.value[1..])
  {
    if items.None? then 0
    else
      FirstLine(items.value);
      SumValue(items.value)
  }

  /** The sums over a concatenation add up. */
  lemma {:induction false} SumsAppend(a: seq<LineItem>, b: seq<LineItem>)
    ensures SumQty(a + b) == SumQty(a) + SumQty(b)
    ensures SumValue(a + b) == SumValue(a) + SumValue(b)
    decreases |b|
  {
    if b == [] {
      assert a + b == a;
    } else {
      var b' := b[..|b| - 1];
      assert (a + b)[..|a + b| - 1] == a + b';
      SumsAppend(a, b');
    }
  }

  /** The sums split off the first line. */
  lemma FirstLine(items: seq<LineItem>)
    ensures items != [] ==> SumQty(items) == items[0].qty + SumQty(items[1..])
    ensures items != [] ==> SumValue(items) == items[0].qty * items[0].price + SumValue(items[1..])
  {
    if items != [] {
      assert items == [items[0]] + items[1..];
      SumsAppend([items[0]], items[1..]);
      assert [items[0]][..0] == [];
    }
  }

  /** The sums change by exactly the replaced line's share when one line is replaced. */
  lemma SumsReplace(items: seq<LineItem>, i: nat, x: LineItem)
    requires i < |items|
    ensures SumQty(items[i := x]) == SumQty(items) - items[i].qty + x.qty
    ensures SumValue(items[i := x]) == SumValue(items) - items[i].qty * items[i].price + x.qty * x.price
  {
    var pre, post := items[..i], items[i + 1..];
    assert items == pre + [items[i]] + post;
    assert items[i := x] == pre + [x] + post;
    SumsAppend(pre + [items[i]], post);
    SumsAppend(pre + [x], post);
    SumsAppend(pre, [items[i]]);
    SumsAppend(pre, [x]);
  }

  /** The sums lose exactly the removed line's share when one line is spliced out. */
  lemma SumsRemove(items: seq<LineItem>, i: nat)
    requires i < |items|
    ensures SumQty(SpliceOne(items, i)) == SumQty(items) - items[i].qty
    ensures SumValue(SpliceOne(items, i)) == SumValue(items) - items[i].qty * items[i].price
  {
    var pre, post := items[..i], items[i + 1..];
    assert SpliceStart(i, |items|) == i;
    assert SpliceOne(items, i) == pre + post;
    SplitAt(items, i);
    RemovedShare(pre, items[i], post);
  }

  lemma RemovedShare(pre: seq<LineItem>, x: LineItem, post: seq<LineItem>)
    ensures SumQty(pre + [x] + post) == SumQty(pre + post) + x.qty
    ensures SumValue(pre + [x] + post) == SumValue(pre + post) + x.qty * x.price
  {
    SumsAppend(pre + [x], post);
    SumsAppend(pre, post);
    SumsAppend(pre, [x]);
  }

  class OutboundListScreen {
    var originalOutboundList: seq<OutboundOrder>
    var filteredOutboundList: seq<OutboundOrder>
    var selectedItem: Option<OutboundOrder>
    var showDetail: bool
    /** The header's fields other than `items`; `None` is the initial `{}`. */
    var header: Option<Details>
    /** `header.items`, the list the dialog edits. */
    var headerItems: Option<seq<LineItem>>
    var showHeaderModal: bool
    var showItemModal: bool
    var editingItemIndex: int
    var newItem: LineItem

    constructor()
      ensures originalOutboundList == SampleOrders && filteredOutboundList == []
      ensures selectedItem == None && !showDetail && header == None && headerItems == None
      ensures !showHeaderModal && !showItemModal && editingItemIndex == -1 && newItem == BlankItem
    {
      originalOutboundList, filteredOutboundList := SampleOrders, [];
      selectedItem, showDetail, header, headerItems := None, false, None, None;
      showHeaderModal, showItemModal, editingItemIndex, newItem := false, false, -1, BlankItem;
    }

    /** The `outboundList` getter. */
    function OutboundList(): seq<OutboundOrder>
      reads this
    {
      Displayed(filteredOutboundList, originalOutboundList)
    }

    /** `handleSearchResults(results)`: the filtered list is replaced wholesale. */
    method HandleSearchResults(results: seq<OutboundOrder>)
      modifies this`filteredOutboundList
      ensures filteredOutboundList == results
      ensures OutboundList() == if results == [] then originalOutboundList else results
    {
      filteredOutboundList := results;
    }

    /**
     * `handleSearchResult(result)`: the criteria record's `items` is a
     * number, never an array, so the filtered list is emptied.
     */
    method HandleSearchResult()
      modifies this`filteredOutboundList
      ensures filteredOutboundList == [] && OutboundList() == originalOutboundList
    {
      filteredOutboundList := [];
    }

    /** `select(item)`: the order is shown and its details become the header. */
    method Select(item: OutboundOrder)
      modifies this`selectedItem, this`showDetail, this`header, this`headerItems
      ensures selectedItem == Some(item) && showDetail
      ensures header == Some(item.details) && headerItems == item.details.items
    {
      selectedItem := Some(item);
      showDetail := true;
      header := Some(item.details);
      headerItems := item.details.items;
    }

    method OpenHeaderModal()
      modifies this`showHeaderModal
      ensures showHeaderModal
    {
      showHeaderModal := true;
    }

    method CloseHeaderModal()
      modifies this`showHeaderModal
      ensures !showHeaderModal
    {
      showHeaderModal := false;
    }

    /** `addItem`: the dialog opens on a blank item, for appending. */
    method AddItem()
      modifies this`newItem, this`editingItemIndex, this`showItemModal
      ensures newItem == BlankItem && editingItemIndex == -1 && showItemModal
    {
      newItem := BlankItem;
      editingItemIndex := -1;
      showItemModal := true;
    }

    /** `editItem(index)`: the dialog opens on a copy of line `index`. */
    method EditItem(index: int)
      requires headerItems.Some? && 0 <= index < |headerItems.value|
      modifies this`newItem, this`editingItemIndex, this`showItemModal
      ensures editingItemIndex == index && newItem == headerItems.value[index] && showItemModal
    {
      editingItemIndex := index;
      newItem := headerItems.value[index];
      showItemModal := true;
    }

    /** `closeItemModal`: the dialog closes and forgets the item and the index. */
    method CloseItemModal()
      modifies this`showItemModal, this`newItem, this`editingItemIndex
      ensures !showItemModal && newItem == BlankItem && editingItemIndex == -1
    {
      showItemModal := false;
      newItem := BlankItem;
      editingItemIndex := -1;
    }

    /**
     * `saveItem`: a missing list becomes `[]`; with an edit index the line
     * there is replaced, otherwise the item is appended; then the dialog
     * closes.
     */
    method SaveItem()
      requires editingItemIndex < |headerItems.GetOr([])|
      modifies this`headerItems, this`showItemModal, this`newItem, this`editingItemIndex
      ensures var items := old(headerItems).GetOr([]);
        headerItems == Some(if old(editingItemIndex) >= 0 then items[old(editingItemIndex) := old(newItem)] else items + [old(newItem)])
      ensures !showItemModal && newItem == BlankItem && editingItemIndex == -1
    {
      if headerItems.None? {
        headerItems := Some([]);
      }
      var items := headerItems.value;
      if editingItemIndex >= 0 {
        items := items[editingItemIndex := newItem];
      } else {
        items := items + [newItem];
      }
      headerItems := Some(items);
      CloseItemModal();
    }

    /** `removeItem(index)`: `splice(index, 1)` on the list, when there is one. */
    method RemoveItem(index: int)
      modifies this`headerItems
      ensures old(headerItems).None? ==> headerItems == None
      ensures old(headerItems).Some? ==> headerItems == Some(SpliceOne(old(headerItems).value, index))
    {
      if headerItems.Some? {
        headerItems := Some(SpliceOne(headerItems.value, index));
      }
    }
  }

  /**
   * Saving an edited line keeps the length and every other line; saving a
   * new one adds exactly one line at the end; the totals move by the
   * line's share.
   */
  lemma SaveItemEffect(items: seq<LineItem>, index: int, x: LineItem)
    requires index < |items|
    ensures var r := if index >= 0 then items[index := x] else items + [x];
      && (index >= 0 ==> |r| == |items| && r[index] == x && forall j :: 0 <= j < |items| && j != index ==> r[j] == items[j])
      && (index < 0 ==> |r| == |items| + 1 && r[..|items|] == items && r[|items|] == x)
      && (index >= 0 ==> SumQty(r) == SumQty(items) - items[index].qty + x.qty)
      && (index >= 0 ==> SumValue(r) == SumValue(items) - items[index].qty * items[index].price + x.qty * x.price)
      && (index < 0 ==> SumQty(r) == SumQty(items) + x.qty && SumValue(r) == SumValue(items) + x.qty * x.price)
  {
    if index >= 0 {
      SumsReplace(items, index, x);
    } else {
      SumsAppend(items, [x]);
      assert (items + [x])[..|items|] == items;
    }
  }

  /** Removing line `i` drops exactly that line, shifts the later ones left and lowers the totals by its share. */
  lemma RemoveItemEffect(items: seq<LineItem>, i: nat)
    requires i < |items|
    ensures var r := SpliceOne(items, i);
      && |r| == |items| - 1
      && (forall j :: 0 <= j < i ==> r[j] == items[j])
      && (forall j :: i <= j < |r| ==> r[j] == items[j + 1])
      && SumQty(r) == SumQty(items) - items[i].qty
      && SumValue(r) == SumValue(items) - items[i].qty * items[i].price
  {
    SpliceOneAt(items, i);
    SumsRemove(items, i);
  }

  /** Both totals are 0 for an order without lines. */
  lemma EmptyTotals()
    ensures TotalQuantity(None) == 0 && TotalValue(None) == 0
    ensures TotalQuantity(Some([])) == 0 && TotalValue(Some([])) == 0
  {
  }
}
