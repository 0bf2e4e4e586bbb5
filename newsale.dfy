/**
 * The new-sale page of the client: the item selector, adding an entry to the
 * cart (`handleAddItem`), removing one (`handleRemoveItem`), the running total
 * (`calculateTotal`) and the empty-cart check of `handleSubmit`.  The page's
 * state changes by replacing the cart with a new list, so each handler is a
 * function from the old cart to the new one.
 */
module NewSale {
  import opened Wrappers
  import opened Text
  import opened MobileModel
  import opened AccessoryModel
  import opened SaleItemModel
  import opened Database
  import opened SaleSpec
  import SaleProofs
  import opened FormInput

  /** A row of a list the page fetched: its id and the record. */
  datatype Listed<T> = Listed(id: nat, row: T)

  /**
   * The selector: the type chosen in the first `<select>`, the value of the
   * second (the chosen row's id as text, or "" for none) and the quantity input.
   */
  datatype Selector = Selector(itemType: ItemType, itemId: string, quantity: NumField)

  /** The selector after a successful add, and when the page opens: a mobile, nothing chosen, quantity 1. */
  const InitialSelector := Selector(MobileItem, "", Num(1))

  /**
   * One cart entry: the selector's fields with the id parsed, the name and
   * price shown, and the quantity, where `None` is the NaN `parseInt('')` gives.
   */
  datatype CartEntry = CartEntry(itemType: ItemType, itemId: nat, name: string, price: int, quantity: Option<int>)

  datatype Page = Page(items: seq<CartEntry>, itemToAdd: Selector)

  datatype Refusal =
    | NothingSelected           // "Please select an item"
    | AlreadyAdded              // "Item already added"
    | ItemNotFound              // "Item not found"
    | NotEnoughStock(units: int) // "Only N units available"
    | EmptyCart                 // "Please add at least one item"

  /** The page after a handler ran, and the alert it raised if it refused. */
  datatype Outcome = Outcome(page: Page, refusal: Option<Refusal>)

  /** `list.find(x => x.id === id)`: the first row with that id; a NaN id finds nothing. */
  function Find<T>(rows: seq<Listed<T>>, id: Option<int>): (r: Option<Listed<T>>)
    ensures r.Some? ==> r.value in rows && id == Some(r.value.id as int)
    ensures r.None? <==> forall k :: 0 <= k < |rows| ==> id != Some(rows[k].id as int)
  {
    if rows == [] then None
    else if id == Some(rows[0].id as int) then Some(rows[0])
    else
      var r := Find(rows[1..], id);
      assert forall k :: 1 <= k < |rows| ==> rows[k] == rows[1..][k - 1];
      r
  }

  /** The entry the selector yields for a found mobile: one unit at its selling price. */
  function MobileEntry(row: Listed<Mobile>): CartEntry {
    CartEntry(MobileItem, row.id, DisplayName(row.row), row.row.sellingPrice, Some(1))
  }

  /** The entry for a found accessory: the parsed quantity at its selling price. */
  function AccessoryEntry(row: Listed<Accessory>, quantity: NumField): CartEntry {
    CartEntry(AccessoryItem, row.id, row.row.name, row.row.sellingPrice, Parsed(quantity))
  }

  /** The row of the chosen type whose id the selector's value parses to is in the fetched list. */
  predicate Found(sel: Selector, mobiles: seq<Listed<Mobile>>, accessories: seq<Listed<Accessory>>) {
    match sel.itemType
    case MobileItem => Find(mobiles, ParseInt(sel.itemId)).Some?
    case AccessoryItem => Find(accessories, ParseInt(sel.itemId)).Some?
  }

  /** The chosen accessory is listed with fewer units than the quantity asks for (`Number('')` is 0). */
  predicate Short(sel: Selector, accessories: seq<Listed<Accessory>>) {
    && sel.itemType == AccessoryItem
    && Find(accessories, ParseInt(sel.itemId)).Some?
    && Find(accessories, ParseInt(sel.itemId)).value.row.quantity < NumberValue(sel.quantity)
  }

  /**
   * `handleAddItem`, given the verdict of its duplicate test: refuse when
   * nothing is chosen, on a duplicate, when the id is in neither list, or when
   * an accessory has fewer units than asked for (`Number('')` is 0); otherwise
   * append one entry and reset the selector.  A refusal changes nothing.
   */
  function Add(page: Page, mobiles: seq<Listed<Mobile>>, accessories: seq<Listed<Accessory>>, duplicate: bool): (r: Outcome)
    ensures r.refusal.Some? ==> r.page == page
    ensures r.refusal == Some(NothingSelected) <==> page.itemToAdd.itemId == ""
    ensures r.refusal == Some(AlreadyAdded) <==> page.itemToAdd.itemId != "" && duplicate
    ensures r.refusal == Some(ItemNotFound) <==>
      page.itemToAdd.itemId != "" && !duplicate && !Found(page.itemToAdd, mobiles, accessories)
    ensures r.refusal.Some? && r.refusal.value.NotEnoughStock? <==>
      page.itemToAdd.itemId != "" && !duplicate && Short(page.itemToAdd, accessories)
    ensures r.refusal.Some? && r.refusal.value.NotEnoughStock? ==>
      r.refusal.value.units == Find(accessories, ParseInt(page.itemToAdd.itemId)).value.row.quantity
    ensures r.refusal.None? <==>
      && page.itemToAdd.itemId != "" && !duplicate
      && Found(page.itemToAdd, mobiles, accessories) && !Short(page.itemToAdd, accessories)
    ensures r.refusal.Some? ==> r.refusal.value != Refusal.EmptyCart
    ensures r.refusal.None? ==>
      && r.page.itemToAdd == InitialSelector
      && |r.page.items| == |page.items| + 1
      && r.page.items[..|page.items|] == page.items
      && EntryFor(page.itemToAdd, mobiles, accessories, r.page.items[|page.items|])
  {
    var sel := page.itemToAdd;
    if sel.itemId == "" then Outcome(page, Some(NothingSelected))
    else if duplicate then Outcome(page, Some(AlreadyAdded))
    else
      var id := ParseInt(sel.itemId);
      match sel.itemType
      case MobileItem =>
        (match Find(mobiles, id)
         case None => Outcome(page, Some(ItemNotFound))
         case Some(row) =>
           var items := page.items + [MobileEntry(row)];
           assert items[..|page.items|] == page.items;
           Outcome(Page(items, InitialSelector), None))
      case AccessoryItem =>
        (match Find(accessories, id)
         case None => Outcome(page, Some(ItemNotFound))
         case Some(row) =>
           if row.row.quantity < NumberValue(sel.quantity) then Outcome(page, Some(NotEnoughStock(row.row.quantity)))
           else
             var items := page.items + [AccessoryEntry(row, sel.quantity)];
             assert items[..|page.items|] == page.items;
             Outcome(Page(items, InitialSelector), None))
  }

  /**
   * What a successful add appends: an entry for the row of the chosen type
   * whose id the selector's value parses to, priced at that row's selling
   * price; a mobile is one unit, an accessory the parsed quantity, and the
   * accessory had at least that many units.
   */
  ghost predicate EntryFor(sel: Selector, mobiles: seq<Listed<Mobile>>, accessories: seq<Listed<Accessory>>, e: CartEntry) {
    && e.itemType == sel.itemType
    && ParseInt(sel.itemId) == Some(e.itemId as int)
    && match sel.itemType
       case MobileItem =>
         exists row :: row in mobiles && row.id == e.itemId && e == MobileEntry(row)
       case AccessoryItem =>
         exists row :: row in accessories && row.id == e.itemId && e == AccessoryEntry(row, sel.quantity) &&
           NumberValue(sel.quantity) <= row.row.quantity
  }

  /** A JavaScript value as `===` compares it: a number never equals a string. */
  datatype JsValue = JsNumber(n: int) | JsString(s: string)

  /**
   * The duplicate test as written: the stored entry's id is the number
   * `parseInt` gave, the selector's is the `<select>` value, a string.
   */
  predicate InCartAsWritten(items: seq<CartEntry>, sel: Selector) {
    exists k :: 0 <= k < |items| && items[k].itemType == sel.itemType &&
      JsNumber(items[k].itemId) == JsString(sel.itemId)
  }

  /** `handleAddItem` as written. */
  function AddItemAsWritten(page: Page, mobiles: seq<Listed<Mobile>>, accessories: seq<Listed<Accessory>>): Outcome {
    Add(page, mobiles, accessories, InCartAsWritten(page.items, page.itemToAdd))
  }

  /** The duplicate test as written never fires. */
  lemma DuplicateCheckNeverFires(page: Page, mobiles: seq<Listed<Mobile>>, accessories: seq<Listed<Accessory>>)
    ensures AddItemAsWritten(page, mobiles, accessories).refusal != Some(AlreadyAdded)
  {
  }

  /**
   * Choosing the same in-stock accessory twice, one unit each time, puts two
   * entries for it in the cart: the second add is not refused.
   */
  lemma SameAccessoryAddedTwice(a: Accessory)
    requires a.quantity >= 1
    ensures var accessories := [Listed(7, a)];
      var chosen := Selector(AccessoryItem, "7", Num(1));
      var first := AddItemAsWritten(Page([], chosen), [], accessories);
      var second := AddItemAsWritten(first.page.(itemToAdd := chosen), [], accessories);
      && first.refusal.None? && second.refusal.None?
      && |second.page.items| == 2
      && second.page.items[0].itemId == second.page.items[1].itemId == 7
      && second.page.items[0].itemType == second.page.items[1].itemType == AccessoryItem
  {
    assert ParseInt("7") == Some(7) by {
      ParseIntDigits("7");
      assert "7"[..0] == [];
    }
  }

  /** The duplicate test as intended: an entry of the same type whose id is the one the selector's value parses to. */
  predicate InCart(items: seq<CartEntry>, sel: Selector) {
    exists k :: 0 <= k < |items| && items[k].itemType == sel.itemType && ParseInt(sel.itemId) == Some(items[k].itemId as int)
  }

  /** `handleAddItem` with the duplicate test it was meant to have. */
  function AddItem(page: Page, mobiles: seq<Listed<Mobile>>, accessories: seq<Listed<Accessory>>): (r: Outcome)
    ensures r.refusal == Some(AlreadyAdded) <==> page.itemToAdd.itemId != "" && InCart(page.items, page.itemToAdd)
  {
    Add(page, mobiles, accessories, InCart(page.items, page.itemToAdd))
  }

  /** No two entries of the cart are for the same item. */
  predicate Distinct(items: seq<CartEntry>) {
    forall j, k :: 0 <= j < k < |items| ==> (items[j].itemType, items[j].itemId) != (items[k].itemType, items[k].itemId)
  }

  /** With the intended test, a cart never holds the same item twice. */
  lemma AddItemKeepsDistinct(page: Page, mobiles: seq<Listed<Mobile>>, accessories: seq<Listed<Accessory>>)
    requires Distinct(page.items)
    ensures Distinct(AddItem(page, mobiles, accessories).page.items)
  {
    var r := AddItem(page, mobiles, accessories);
    if r.refusal.None? {
      var n := |page.items|;
      var e := r.page.items[n];
      assert !InCart(page.items, page.itemToAdd);
      forall j | 0 <= j < n
        ensures (r.page.items[j].itemType, r.page.items[j].itemId) != (e.itemType, e.itemId)
      {
        assert r.page.items[j] == r.page.items[..n][j] == page.items[j];
      }
    }
  }

  /** `handleRemoveItem(index)`: `items.filter((_, i) => i !== index)`. */
  function RemoveAt<T>(items: seq<T>, index: int): (r: seq<T>)
    ensures 0 <= index < |items| ==> r == items[..index] + items[index + 1..]
    ensures !(0 <= index < |items|) ==> r == items
  {
    if items == [] then []
    else
      var n := |items| - 1;
      var init := RemoveAt(items[..n], index);
      assert items == items[..n] + [items[n]];
      if n == index then
        init
      else
        assert 0 <= index < n ==>
          items[..n][..index] == items[..index] && items[..n][index + 1..] + [items[n]] == items[index + 1..];
        init + [items[n]]
  }

  /** `calculateTotal`: the sum of price times quantity, NaN (`None`) once any quantity is NaN. */
  function CartTotal(items: seq<CartEntry>): (t: Option<int>)
    ensures t.Some? <==> forall k :: 0 <= k < |items| ==> items[k].quantity.Some?
  {
    if items == [] then Some(0)
    else
      var n := |items| - 1;
      assert forall k :: 0 <= k < n ==> items[..n][k] == items[k];
      match CartTotal(items[..n])
      case None => None
      case Some(sum) =>
        match items[n].quantity
        case None => None
        case Some(q) => Some(sum + items[n].price * q)
  }

  /** An entry's share of the total. */
  function Amount(e: CartEntry): Option<int> {
    if e.quantity.Some? then Some(e.price * e.quantity.value) else None
  }

  function AddAmounts(a: Option<int>, b: Option<int>): Option<int> {
    if a.Some? && b.Some? then Some(a.value + b.value) else None
  }

  /** The total of two carts one after the other is the sum of their totals. */
  lemma {:induction false} CartTotalAppend(a: seq<CartEntry>, b: seq<CartEntry>)
    ensures CartTotal(a + b) == AddAmounts(CartTotal(a), CartTotal(b))
    decreases |b|
  {
    if b == [] {
      assert a + b == a;
    } else {
      var n := |b| - 1;
      assert (a + b)[..|a + b| - 1] == a + b[..n];
      CartTotalAppend(a, b[..n]);
    }
  }

  /** A successful add raises the total by the new entry's price times its quantity. */
  lemma AddRaisesTotal(page: Page, mobiles: seq<Listed<Mobile>>, accessories: seq<Listed<Accessory>>)
    requires AddItem(page, mobiles, accessories).refusal.None?
    ensures var items := AddItem(page, mobiles, accessories).page.items;
      CartTotal(items) == AddAmounts(CartTotal(page.items), Amount(items[|page.items|]))
  {
    var items := AddItem(page, mobiles, accessories).page.items;
    var n := |page.items|;
    assert items == page.items + [items[n]] by {
      assert items[..n] == page.items;
    }
    CartTotalAppend(page.items, [items[n]]);
  }

  /** Removing entry `i` takes exactly its amount off the total. */
  lemma RemoveLowersTotal(items: seq<CartEntry>, i: int)
    requires 0 <= i < |items|
    ensures CartTotal(items) == AddAmounts(CartTotal(RemoveAt(items, i)), Amount(items[i]))
  {
    var before := items[..i];
    var after := items[i + 1..];
    var x := items[i];
    assert items == (before + [x]) + after;
    assert RemoveAt(items, i) == before + after;
    var tb, ta, tx := CartTotal(before), CartTotal(after), Amount(x);
    SingleTotal(x);
    CartTotalAppend(before, [x]);
    assert CartTotal(before + [x]) == AddAmounts(tb, tx);
    CartTotalAppend(before + [x], after);
    assert CartTotal(items) == AddAmounts(AddAmounts(tb, tx), ta);
    CartTotalAppend(before, after);
    assert CartTotal(before + after) == AddAmounts(tb, ta);
    AddAmountsSwap(tb, tx, ta);
  }

  lemma AddAmountsSwap(a: Option<int>, b: Option<int>, c: Option<int>)
    ensures AddAmounts(AddAmounts(a, b), c) == AddAmounts(AddAmounts(a, c), b)
  {
  }

  lemma SingleTotal(x: CartEntry)
    ensures CartTotal([x]) == Amount(x)
  {
    assert [x][..0] == [];
  }

  /** The check at the top of `handleSubmit`: an empty cart is refused; any other is sent as it is. */
  function Submit(items: seq<CartEntry>): (r: Result<seq<CartEntry>, Refusal>)
    ensures r.Err? <==> |items| == 0
    ensures r.Err? ==> r.error == Refusal.EmptyCart
    ensures r.Ok? ==> r.value == items
  {
    if |items| == 0 then Err(Refusal.EmptyCart) else Ok(items)
  }

  /** The request body entry the server reads for a cart entry whose quantity is a number. */
  function RequestOf(e: CartEntry): RequestItem {
    RequestItem(Some(ItemTypeName(e.itemType)), Some(e.itemId as int), e.quantity)
  }

  function Requests(items: seq<CartEntry>): (r: seq<RequestItem>)
    ensures |r| == |items|
  {
    if items == [] then [] else Requests(items[..|items| - 1]) + [RequestOf(items[|items| - 1])]
  }

  /** A cart the page lets through is never answered with the server's empty-cart error. */
  lemma SentCartIsNotEmpty(items: seq<CartEntry>, s: DbState, req: SaleRequest, user: int, today: string)
    requires Submit(items).Ok?
    requires req.items == Some(Requests(items))
    ensures CreateSaleSpec(s, req, user, today) != Err(SaleSpec.EmptyCart)
  {
    SaleProofs.CreateSaleEmptyCartIff(s, req, user, today);
  }
}
