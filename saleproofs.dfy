/**
 * What the sale transaction engine guarantees: the effect of a cart on the
 * stock, the lines it yields, the store invariant both operations keep, and
 * that deleting a sale just created gives the database back.
 */
module SaleProofs {
  import opened Wrappers
  import opened Text
  import opened MobileModel
  import opened AccessoryModel
  import opened SaleModel
  import opened SaleItemModel
  import opened Database
  import opened SaleSpec

  /** Once an entry fails, the outcome of the whole cart is that failure. */
  lemma {:induction false} ProcessItemsFirstError(st: Stock, items: seq<RequestItem>, n: nat)
    requires n <= |items| && ProcessItems(st, items[..n]).Err?
    ensures ProcessItems(st, items) == ProcessItems(st, items[..n])
    decreases |items|
  {
    if n == |items| {
      assert items[..n] == items;
    } else {
      var init := items[..|items| - 1];
      assert init[..n] == items[..n];
      ProcessItemsFirstError(st, init, n);
    }
  }

  /** A pass over the cart fails only with a per-entry error, never with `EmptyCart`. */
  lemma {:induction false} ProcessItemsNotEmptyCart(st: Stock, items: seq<RequestItem>)
    ensures ProcessItems(st, items) != Err(EmptyCart)
  {
    if items != [] {
      ProcessItemsNotEmptyCart(st, items[..|items| - 1]);
    }
  }

  /** `createSale` answers `EmptyCart` exactly when `items` is missing or empty. */
  lemma CreateSaleEmptyCartIff(s: DbState, req: SaleRequest, user: int, today: string)
    ensures CreateSaleSpec(s, req, user, today) == Err(EmptyCart) <==> req.items.None? || req.items.value == []
  {
    if req.items.Some? {
      ProcessItemsNotEmptyCart(Stock(s.mobiles, s.accessories), req.items.value);
    }
  }

  /** One more entry after a successful prefix: its failure, or its line appended. */
  lemma ProcessItemsNext(st: Stock, items: seq<RequestItem>, i: nat)
    requires i < |items| && ProcessItems(st, items[..i]).Ok?
    ensures var cur := ProcessItems(st, items[..i]).value.0;
      var ls := ProcessItems(st, items[..i]).value.1;
      var out := ProcessItem(cur, items[i]);
      && (out.Err? ==> ProcessItems(st, items[..i + 1]) == Err(out.error))
      && (out.Ok? ==> ProcessItems(st, items[..i + 1]) == Ok((out.value.0, ls + [out.value.1])))
  {
    assert items[..i + 1][..i] == items[..i];
  }

  /**
   * An entry without a truthy type or id, or with a type other than "mobile"
   * and "accessory", fails the whole cart whatever the earlier entries did and
   * whatever follows.
   */
  lemma EntryFailureIsFinal(st: Stock, items: seq<RequestItem>, k: nat)
    requires k < |items| && ProcessItems(st, items[..k]).Ok?
    ensures !HasText(items[k].itemType) || !HasId(items[k].itemId) ==>
      ProcessItems(st, items) == Err(MalformedItem)
    ensures HasText(items[k].itemType) && HasId(items[k].itemId) &&
            items[k].itemType.value != "mobile" && items[k].itemType.value != "accessory" ==>
      ProcessItems(st, items) == Err(InvalidItemType)
  {
    assert items[..k + 1][..k] == items[..k];
    if ProcessItems(st, items[..k + 1]).Err? {
      ProcessItemsFirstError(st, items, k + 1);
    }
  }

  lemma SellsMobileSnoc(ls: seq<Line>, l: Line, id: nat)
    ensures SellsMobile(ls + [l], id) <==> SellsMobile(ls, id) || (l.itemType == MobileItem && l.itemId == id)
  {
    assert (ls + [l])[..|ls|] == ls;
  }

  lemma QtyOfSnoc(ls: seq<Line>, l: Line, id: nat)
    ensures QtyOf(ls + [l], id) == QtyOf(ls, id) + (if l.itemType == AccessoryItem && l.itemId == id then l.quantity else 0)
  {
    assert (ls + [l])[..|ls|] == ls;
  }

  /** `SellsMobile` is the existence of a mobile line for that id. */
  lemma {:induction false} SellsMobileIff(ls: seq<Line>, id: nat)
    ensures SellsMobile(ls, id) <==> exists k :: 0 <= k < |ls| && ls[k].itemType == MobileItem && ls[k].itemId == id
  {
    if ls != [] {
      var init := ls[..|ls| - 1];
      SellsMobileIff(init, id);
      assert init + [ls[|ls| - 1]] == ls;
      if SellsMobile(init, id) {
        var k :| 0 <= k < |init| && init[k].itemType == MobileItem && init[k].itemId == id;
        assert ls[k] == init[k];
      }
      if exists k :: 0 <= k < |ls| && ls[k].itemType == MobileItem && ls[k].itemId == id {
        var k :| 0 <= k < |ls| && ls[k].itemType == MobileItem && ls[k].itemId == id;
        if k < |init| {
          assert init[k] == ls[k];
        }
      }
    }
  }

  /** Nothing sold yet: the stock is its own "after" state. */
  lemma StockAfterNothing(st: Stock)
    requires AccessoriesValid(st.accessories)
    ensures StockAfter(st, [], st)
  {
    forall id | id in st.accessories
      ensures st.accessories[id] == st.accessories[id].(quantity := st.accessories[id].quantity - QtyOf([], id))
    {
    }
  }

  /** One more entry, processed against the stock the earlier lines left, extends the relation by its line. */
  lemma ProcessItemStep(st: Stock, ls: seq<Line>, cur: Stock, item: RequestItem)
    requires StockAfter(st, ls, cur)
    requires ProcessItem(cur, item).Ok?
    ensures var next := ProcessItem(cur, item).value.0;
      var l := ProcessItem(cur, item).value.1;
      && StockAfter(st, ls + [l], next)
      && LineMatches(st, item, l)
      && (l.itemType == MobileItem ==> !SellsMobile(ls, l.itemId))
  {
    var next := ProcessItem(cur, item).value.0;
    var l := ProcessItem(cur, item).value.1;
    var id: nat := item.itemId.value;
    if item.itemType.value == "mobile" {
      assert cur.mobiles[id].status == InStock;
      assert !SellsMobile(ls, id);
      assert cur.mobiles[id] == st.mobiles[id];
      StockAfterMobileLine(st, ls, cur, l, next);
    } else {
      assert l.itemType == AccessoryItem;
      assert cur.accessories[id].name == st.accessories[id].name;
      assert UnitProfit(cur.accessories[id]) == UnitProfit(st.accessories[id]);
      StockAfterAccessoryLine(st, ls, cur, l, next);
    }
  }

  /** Selling one more in-stock mobile extends the relation by its line. */
  lemma StockAfterMobileLine(st: Stock, ls: seq<Line>, cur: Stock, l: Line, next: Stock)
    requires StockAfter(st, ls, cur)
    requires l.itemType == MobileItem && l.itemId in cur.mobiles && cur.mobiles[l.itemId].status == InStock
    requires next == cur.(mobiles := cur.mobiles[l.itemId := cur.mobiles[l.itemId].(status := Sold)])
    ensures StockAfter(st, ls + [l], next)
  {
    var lines := ls + [l];
    forall id | id in st.mobiles
      ensures next.mobiles[id] == (if SellsMobile(lines, id) then st.mobiles[id].(status := Sold) else st.mobiles[id])
    {
      SellsMobileSnoc(ls, l, id);
    }
    forall id | SellsMobile(lines, id)
      ensures id in st.mobiles && st.mobiles[id].status == InStock
    {
      SellsMobileSnoc(ls, l, id);
    }
    forall id | id in st.accessories
      ensures next.accessories[id] == st.accessories[id].(quantity := st.accessories[id].quantity - QtyOf(lines, id))
      ensures QtyOf(lines, id) <= st.accessories[id].quantity
    {
      QtyOfSnoc(ls, l, id);
    }
  }

  /** Taking units of an accessory that has them extends the relation by its line. */
  lemma StockAfterAccessoryLine(st: Stock, ls: seq<Line>, cur: Stock, l: Line, next: Stock)
    requires StockAfter(st, ls, cur)
    requires l.itemType == AccessoryItem && l.itemId in cur.accessories && l.quantity <= cur.accessories[l.itemId].quantity
    requires next == cur.(accessories := cur.accessories[l.itemId :=
      cur.accessories[l.itemId].(quantity := cur.accessories[l.itemId].quantity - l.quantity)])
    ensures StockAfter(st, ls + [l], next)
  {
    var lines := ls + [l];
    forall id | id in st.mobiles
      ensures next.mobiles[id] == (if SellsMobile(lines, id) then st.mobiles[id].(status := Sold) else st.mobiles[id])
    {
      SellsMobileSnoc(ls, l, id);
    }
    forall id | SellsMobile(lines, id)
      ensures id in st.mobiles && st.mobiles[id].status == InStock
    {
      SellsMobileSnoc(ls, l, id);
    }
    forall id | id in st.accessories
      ensures next.accessories[id] == st.accessories[id].(quantity := st.accessories[id].quantity - QtyOf(lines, id))
      ensures QtyOf(lines, id) <= st.accessories[id].quantity
    {
      QtyOfSnoc(ls, l, id);
    }
  }

  /**
   * What a successful pass over the cart did: one line per entry, in entry
   * order and priced from the stock before the sale; every mobile sold was in
   * stock and is sold at most once; every accessory lost exactly the units its
   * lines took, and never more than it had.
   */
  lemma {:induction false} ProcessItemsEffect(st: Stock, items: seq<RequestItem>)
    requires AccessoriesValid(st.accessories) && ProcessItems(st, items).Ok?
    ensures var after := ProcessItems(st, items).value.0;
      var lines := ProcessItems(st, items).value.1;
      && |lines| == |items|
      && StockAfter(st, lines, after)
      && (forall k :: 0 <= k < |items| ==> LineMatches(st, items[k], lines[k]))
      && MobilesDistinct(lines)
    decreases |items|
  {
    if items == [] {
      StockAfterNothing(st);
    } else {
      var n := |items|;
      var init := items[..n - 1];
      assert items[..n] == items;
      assert items == init + [items[n - 1]];
      ProcessItemsEffect(st, init);
      var cur := ProcessItems(st, init).value.0;
      var ls := ProcessItems(st, init).value.1;
      ProcessItemStep(st, ls, cur, items[n - 1]);
      var next := ProcessItem(cur, items[n - 1]).value.0;
      var l := ProcessItem(cur, items[n - 1]).value.1;
      ProcessItemsNext(st, items, n - 1);
      LinesMatchSnoc(st, init, ls, items[n - 1], l);
      MobilesDistinctSnoc(ls, l);
    }
  }

  lemma LinesMatchSnoc(st: Stock, init: seq<RequestItem>, ls: seq<Line>, item: RequestItem, l: Line)
    requires |init| == |ls| && LineMatches(st, item, l)
    requires forall k :: 0 <= k < |init| ==> LineMatches(st, init[k], ls[k])
    ensures forall k :: 0 <= k < |init| + 1 ==> LineMatches(st, (init + [item])[k], (ls + [l])[k])
  {
    forall k | 0 <= k < |init| + 1 ensures LineMatches(st, (init + [item])[k], (ls + [l])[k]) {
      if k < |init| {
        assert (init + [item])[k] == init[k] && (ls + [l])[k] == ls[k];
      }
    }
  }

  lemma MobilesDistinctSnoc(ls: seq<Line>, l: Line)
    requires MobilesDistinct(ls)
    requires l.itemType == MobileItem ==> !SellsMobile(ls, l.itemId)
    ensures MobilesDistinct(ls + [l])
  {
    var lines := ls + [l];
    if l.itemType == MobileItem {
      SellsMobileIff(ls, l.itemId);
    }
    forall j, k | 0 <= j < k < |lines| && lines[j].itemType == MobileItem && lines[k].itemType == MobileItem
      ensures lines[j].itemId != lines[k].itemId
    {
      if k < |ls| {
        assert lines[j] == ls[j] && lines[k] == ls[k];
      } else {
        assert lines[j] == ls[j];
      }
    }
  }

  /** The stock left by a sale still satisfies the table invariants. */
  lemma StockAfterKeepsValid(before: Stock, lines: seq<Line>, after: Stock)
    requires StockAfter(before, lines, after)
    requires MobilesValid(before.mobiles) && AccessoriesValid(before.accessories)
    ensures MobilesValid(after.mobiles) && AccessoriesValid(after.accessories)
  {
    forall id | id in after.mobiles ensures Stored(after.mobiles[id]) && after.mobiles[id].imei == before.mobiles[id].imei {
    }
  }

  /** Valid lines never take a negative number of units. */
  lemma {:induction false} QtyOfNonNegative(lines: seq<Line>, id: nat)
    requires AllLinesValid(lines)
    ensures QtyOf(lines, id) >= 0
  {
    if lines != [] {
      var init := lines[..|lines| - 1];
      assert AllLinesValid(init) by {
        forall k | 0 <= k < |init| ensures LineValid(init[k]) { assert init[k] == lines[k]; }
      }
      QtyOfNonNegative(init, id);
    }
  }

  /** Putting back one more line extends the restored relation by it. */
  lemma RestockStep(st: Stock, init: seq<Line>, l: Line, r: Stock)
    requires StockRestored(st, init, r)
    ensures StockRestored(st, init + [l], RestockLine(r, l))
  {
    if l.itemType == MobileItem {
      RestockMobileLine(st, init, l, r);
    } else {
      RestockAccessoryLine(st, init, l, r);
    }
  }

  lemma RestockMobileLine(st: Stock, init: seq<Line>, l: Line, r: Stock)
    requires StockRestored(st, init, r) && l.itemType == MobileItem
    ensures StockRestored(st, init + [l], RestockLine(r, l))
  {
    var r' := RestockLine(r, l);
    var lines := init + [l];
    assert r'.accessories == r.accessories;
    forall id | id in st.mobiles
      ensures r'.mobiles[id] == (if SellsMobile(lines, id) then st.mobiles[id].(status := InStock) else st.mobiles[id])
    {
      SellsMobileSnoc(init, l, id);
    }
    forall id | id in st.accessories ensures QtyOf(lines, id) == QtyOf(init, id) {
      QtyOfSnoc(init, l, id);
    }
  }

  lemma RestockAccessoryLine(st: Stock, init: seq<Line>, l: Line, r: Stock)
    requires StockRestored(st, init, r) && l.itemType == AccessoryItem
    ensures StockRestored(st, init + [l], RestockLine(r, l))
  {
    var r' := RestockLine(r, l);
    var lines := init + [l];
    assert r'.mobiles == r.mobiles;
    forall id | id in st.mobiles ensures SellsMobile(lines, id) == SellsMobile(init, id) {
      SellsMobileSnoc(init, l, id);
    }
    forall id | id in st.accessories
      ensures r'.accessories[id] == st.accessories[id].(quantity := st.accessories[id].quantity + QtyOf(lines, id))
    {
      QtyOfSnoc(init, l, id);
    }
  }

  /** The restock loop puts every sold mobile back in stock and every sold unit back on the shelf. */
  lemma {:induction false} RestockEffect(st: Stock, lines: seq<Line>)
    ensures StockRestored(st, lines, Restock(st, lines))
  {
    if lines == [] {
      forall id | id in st.accessories
        ensures st.accessories[id] == st.accessories[id].(quantity := st.accessories[id].quantity + QtyOf([], id))
      {
      }
    } else {
      var init := lines[..|lines| - 1];
      var l := lines[|lines| - 1];
      assert init + [l] == lines;
      RestockEffect(st, init);
      RestockStep(st, init, l, Restock(st, init));
    }
  }

  /** Restocked tables still satisfy the table invariants when the lines are valid ones. */
  lemma StockRestoredKeepsValid(before: Stock, lines: seq<Line>, after: Stock)
    requires StockRestored(before, lines, after) && AllLinesValid(lines)
    requires MobilesValid(before.mobiles) && AccessoriesValid(before.accessories)
    ensures MobilesValid(after.mobiles) && AccessoriesValid(after.accessories)
  {
    forall id | id in after.mobiles ensures Stored(after.mobiles[id]) && after.mobiles[id].imei == before.mobiles[id].imei {
    }
    forall id | id in after.accessories ensures AccessoryStored(after.accessories[id]) {
      QtyOfNonNegative(lines, id);
    }
  }

  /** Putting back what a pass over the cart took gives the original stock. */
  lemma RestockUndoesSale(st: Stock, lines: seq<Line>, after: Stock)
    requires StockAfter(st, lines, after)
    ensures Restock(after, lines) == st
  {
    var r := Restock(after, lines);
    RestockEffect(after, lines);
    forall id | id in st.mobiles ensures r.mobiles[id] == st.mobiles[id] {
      if SellsMobile(lines, id) {
        assert st.mobiles[id].status == InStock;
      }
    }
    assert r.mobiles == st.mobiles;
    forall id | id in st.accessories ensures r.accessories[id] == st.accessories[id] {
    }
    assert r.accessories == st.accessories;
  }

  /** The new sale has no rows yet in a valid database. */
  lemma NoRowsForNextSale(s: DbState)
    requires StateValid(s)
    ensures forall k :: k in s.saleItems ==> k < s.nextSaleItemId && s.saleItems[k].saleId != s.nextSaleId
  {
  }

  /** The steps a successful `createSale` went through, and the content it wrote. */
  lemma CreateSaleUnfold(s: DbState, req: SaleRequest, user: int, today: string)
    requires CreateSaleSpec(s, req, user, today).Ok?
    ensures req.items.Some? && req.items.value != []
    ensures ProcessItems(Stock(s.mobiles, s.accessories), req.items.value).Ok?
    ensures var p := ProcessItems(Stock(s.mobiles, s.accessories), req.items.value).value;
      && SaleValid(Header(req, p.1, user, today))
      && AllLinesValid(p.1)
      && CreateSaleSpec(s, req, user, today).value == Recorded(s, p.0, Header(req, p.1, user, today), p.1)
  {
  }

  /** The rows written for the new sale are exactly its lines, and every other sale keeps its lines. */
  lemma RecordedLines(s: DbState, after: Stock, header: Sale, lines: seq<Line>)
    requires forall k :: k in s.saleItems ==> k < s.nextSaleItemId && s.saleItems[k].saleId != s.nextSaleId
    ensures var s' := Recorded(s, after, header, lines);
      && SaleLines(s'.saleItems, s.nextSaleId, s'.nextSaleItemId) == lines
      && (forall other :: other != s.nextSaleId ==>
            SaleLines(s'.saleItems, other, s'.nextSaleItemId) == SaleLines(s.saleItems, other, s.nextSaleItemId))
  {
    var s' := Recorded(s, after, header, lines);
    assert s'.saleItems == AppendLines(s.saleItems, s.nextSaleId, lines, s.nextSaleItemId);
    assert s'.nextSaleItemId == s.nextSaleItemId + |lines|;
    AppendLinesSales(s.saleItems, s.nextSaleId, lines, s.nextSaleItemId);
    forall other | other != s.nextSaleId
      ensures SaleLines(s'.saleItems, other, s'.nextSaleItemId) == SaleLines(s.saleItems, other, s.nextSaleItemId)
    {
    }
  }

  /** Recording valid lines under a header that carries their sums keeps the store invariant. */
  lemma RecordedKeepsValid(s: DbState, after: Stock, header: Sale, lines: seq<Line>)
    requires StateValid(s)
    requires StockAfter(Stock(s.mobiles, s.accessories), lines, after)
    requires SaleValid(header) && AllLinesValid(lines)
    requires header.totalAmount == Total(lines) && header.profit == Profit(lines)
    ensures StateValid(Recorded(s, after, header, lines))
  {
    var s' := Recorded(s, after, header, lines);
    StockAfterKeepsValid(Stock(s.mobiles, s.accessories), lines, after);
    assert SalesWellFormed(s');
    NoRowsForNextSale(s);
    RecordedLines(s, after, header, lines);
    assert TotalsMatch(s');
  }

  /** A successful `createSale` keeps the store invariant, in particular every header equal to the sums of its lines. */
  lemma CreateSaleKeepsValid(s: DbState, req: SaleRequest, user: int, today: string)
    requires StateValid(s) && CreateSaleSpec(s, req, user, today).Ok?
    ensures StateValid(CreateSaleSpec(s, req, user, today).value)
  {
    CreateSaleUnfold(s, req, user, today);
    var st := Stock(s.mobiles, s.accessories);
    ProcessItemsEffect(st, req.items.value);
    var p := ProcessItems(st, req.items.value).value;
    RecordedKeepsValid(s, p.0, Header(req, p.1, user, today), p.1);
  }

  /**
   * The lines a successful `createSale` wrote: one per cart entry, in cart
   * order, valid and priced from the stock before the sale, no mobile twice;
   * the header's totals are their sums; the stock changed as `StockAfter`
   * says; earlier sales keep their headers and lines, and customers are untouched.
   */
  lemma CreateSaleLines(s: DbState, req: SaleRequest, user: int, today: string)
    requires StateValid(s) && CreateSaleSpec(s, req, user, today).Ok?
    ensures var s' := CreateSaleSpec(s, req, user, today).value;
      var id := s.nextSaleId;
      var items := req.items.value;
      var lines := SaleLines(s'.saleItems, id, s'.nextSaleItemId);
      && id !in s.sales && s'.sales.Keys == s.sales.Keys + {id}
      && s'.sales[id].totalAmount == Total(lines)
      && s'.sales[id].profit == Profit(lines)
      && |lines| == |items|
      && (forall k :: 0 <= k < |items| ==> LineMatches(Stock(s.mobiles, s.accessories), items[k], lines[k]))
      && AllLinesValid(lines)
      && MobilesDistinct(lines)
      && StockAfter(Stock(s.mobiles, s.accessories), lines, Stock(s'.mobiles, s'.accessories))
      && s'.customers == s.customers
      && (forall other :: other in s.sales ==>
            && s'.sales[other] == s.sales[other]
            && SaleLines(s'.saleItems, other, s'.nextSaleItemId) == SaleLines(s.saleItems, other, s.nextSaleItemId))
  {
    CreateSaleUnfold(s, req, user, today);
    var st := Stock(s.mobiles, s.accessories);
    ProcessItemsEffect(st, req.items.value);
    var p := ProcessItems(st, req.items.value).value;
    var header := Header(req, p.1, user, today);
    NoRowsForNextSale(s);
    RecordedShape(s, p.0, header, p.1);
  }

  /** The content `Recorded` produces, table by table. */
  lemma RecordedShape(s: DbState, after: Stock, header: Sale, lines: seq<Line>)
    requires forall k :: k in s.saleItems ==> k < s.nextSaleItemId && s.saleItems[k].saleId != s.nextSaleId
    requires forall id :: id in s.sales ==> id < s.nextSaleId
    ensures var s' := Recorded(s, after, header, lines);
      var id := s.nextSaleId;
      && id !in s.sales && s'.sales.Keys == s.sales.Keys + {id}
      && s'.sales[id] == header
      && SaleLines(s'.saleItems, id, s'.nextSaleItemId) == lines
      && Stock(s'.mobiles, s'.accessories) == after
      && s'.customers == s.customers
      && (forall other :: other in s.sales ==>
            && s'.sales[other] == s.sales[other]
            && SaleLines(s'.saleItems, other, s'.nextSaleItemId) == SaleLines(s.saleItems, other, s.nextSaleItemId))
  {
    RecordedLines(s, after, header, lines);
  }

  /**
   * The header a successful `createSale` wrote: made by the calling user, dated
   * today unless a date was sent, walk-in unless a customer id was sent, paid
   * in cash unless a method was sent, and then with the text sent, whether or
   * not it names a declared method.
   */
  lemma CreateSaleHeader(s: DbState, req: SaleRequest, user: int, today: string)
    requires CreateSaleSpec(s, req, user, today).Ok?
    ensures var h := CreateSaleSpec(s, req, user, today).value.sales[s.nextSaleId];
      && h.createdBy == user
      && h.notes == req.notes
      && (HasText(req.saleDate) ==> h.saleDate == req.saleDate.value)
      && (!HasText(req.saleDate) ==> h.saleDate == today)
      && (HasId(req.customerId) ==> h.customerId == req.customerId)
      && (!HasId(req.customerId) ==> h.customerId == None)
      && (!HasText(req.paymentMethod) ==> h.paymentMethod == "cash")
      && (HasText(req.paymentMethod) ==> h.paymentMethod == req.paymentMethod.value)
  {
    CreateSaleUnfold(s, req, user, today);
  }

  /** Every accessory entry of a cart that became a sale asked for at least one unit. */
  lemma CreateSaleQuantities(s: DbState, req: SaleRequest, user: int, today: string)
    requires StateValid(s) && CreateSaleSpec(s, req, user, today).Ok?
    ensures forall k :: 0 <= k < |req.items.value| && req.items.value[k].itemType == Some("accessory") ==>
      Requested(req.items.value[k]) >= 1
  {
    CreateSaleUnfold(s, req, user, today);
    var st := Stock(s.mobiles, s.accessories);
    ProcessItemsEffect(st, req.items.value);
    var lines := ProcessItems(st, req.items.value).value.1;
    forall k | 0 <= k < |req.items.value| && req.items.value[k].itemType == Some("accessory")
      ensures Requested(req.items.value[k]) >= 1
    {
      assert LineMatches(st, req.items.value[k], lines[k]);
      assert LineValid(lines[k]);
    }
  }

  /** A successful `deleteSale` keeps the store invariant. */
  lemma DeleteSaleKeepsValid(s: DbState, id: int)
    requires StateValid(s) && DeleteSaleSpec(s, id).Ok?
    ensures StateValid(DeleteSaleSpec(s, id).value)
  {
    var s' := DeleteSaleSpec(s, id).value;
    var lines := SaleLines(s.saleItems, id, s.nextSaleItemId);
    var st := Stock(s.mobiles, s.accessories);
    RestockEffect(st, lines);
    SaleLinesValid(s.saleItems, id, s.nextSaleItemId);
    StockRestoredKeepsValid(st, lines, Restock(st, lines));
    assert SalesWellFormed(s');
    forall other | other in s'.sales
      ensures s'.sales[other].totalAmount == Total(SaleLines(s'.saleItems, other, s'.nextSaleItemId))
      ensures s'.sales[other].profit == Profit(SaleLines(s'.saleItems, other, s'.nextSaleItemId))
    {
      WithoutSaleOther(s.saleItems, id, s.nextSaleItemId, other);
    }
  }

  /**
   * What `deleteSale` does: an absent sale is `NotFound`; otherwise the stock is
   * restored as `StockRestored` says for that sale's lines, the header and all
   * its lines are gone, and every other sale keeps its header and lines.
   */
  lemma DeleteSaleOutcome(s: DbState, id: int)
    ensures DeleteSaleSpec(s, id).Err? <==> id < 0 || id !in s.sales
    ensures DeleteSaleSpec(s, id).Err? ==> DeleteSaleSpec(s, id).error == NotFound
    ensures DeleteSaleSpec(s, id).Ok? ==>
      var s' := DeleteSaleSpec(s, id).value;
      && StockRestored(Stock(s.mobiles, s.accessories), SaleLines(s.saleItems, id, s.nextSaleItemId),
                       Stock(s'.mobiles, s'.accessories))
      && s'.sales == s.sales - {id}
      && (forall k :: k in s'.saleItems ==> s'.saleItems[k].saleId != id)
      && (forall other :: other in s'.sales ==>
            SaleLines(s'.saleItems, other, s'.nextSaleItemId) == SaleLines(s.saleItems, other, s.nextSaleItemId))
      && s'.customers == s.customers
  {
    if DeleteSaleSpec(s, id).Ok? {
      RestockEffect(Stock(s.mobiles, s.accessories), SaleLines(s.saleItems, id, s.nextSaleItemId));
      forall other | other in s.sales - {id}
        ensures SaleLines(WithoutSale(s.saleItems, id), other, s.nextSaleItemId) == SaleLines(s.saleItems, other, s.nextSaleItemId)
      {
        WithoutSaleOther(s.saleItems, id, s.nextSaleItemId, other);
      }
    }
  }

  /**
   * Deleting the sale `createSale` just wrote gives back every mobile status,
   * every accessory quantity and the sales tables as they were; only the key
   * counters have moved on.
   */
  lemma CancelUndoesSale(s: DbState, req: SaleRequest, user: int, today: string)
    requires StateValid(s) && CreateSaleSpec(s, req, user, today).Ok?
    ensures var s' := CreateSaleSpec(s, req, user, today).value;
      DeleteSaleSpec(s', s.nextSaleId) == Ok(s.(nextSaleId := s'.nextSaleId, nextSaleItemId := s'.nextSaleItemId))
  {
    CreateSaleUnfold(s, req, user, today);
    var st := Stock(s.mobiles, s.accessories);
    ProcessItemsEffect(st, req.items.value);
    var p := ProcessItems(st, req.items.value).value;
    RecordedUndone(s, p.0, Header(req, p.1, user, today), p.1);
  }

  /** Deleting a just-recorded sale gives back the content before it, up to the key counters. */
  lemma RecordedUndone(s: DbState, after: Stock, header: Sale, lines: seq<Line>)
    requires StateValid(s)
    requires StockAfter(Stock(s.mobiles, s.accessories), lines, after)
    ensures var s' := Recorded(s, after, header, lines);
      DeleteSaleSpec(s', s.nextSaleId) == Ok(s.(nextSaleId := s'.nextSaleId, nextSaleItemId := s'.nextSaleItemId))
  {
    var s' := Recorded(s, after, header, lines);
    var sid := s.nextSaleId;
    NoRowsForNextSale(s);
    RecordedLines(s, after, header, lines);
    RestockUndoesSale(Stock(s.mobiles, s.accessories), lines, after);
    WithoutAppended(s.saleItems, sid, lines, s.nextSaleItemId);
    assert s'.sales - {sid} == s.sales;
  }

  /** The same mobile twice in one cart: the second entry finds it sold. */
  lemma SameMobileTwiceFails(st: Stock, id: nat)
    requires id > 0 && id in st.mobiles && st.mobiles[id].status == InStock
    ensures var e := RequestItem(Some("mobile"), Some(id), None);
      ProcessItems(st, [e, e]) == Err(AlreadySold)
  {
    var e := RequestItem(Some("mobile"), Some(id), None);
    var first := ProcessItem(st, e);
    assert first.Ok? && first.value.0.mobiles[id].status == Sold;
    assert [e][..0] == [];
    assert ProcessItems(st, [e][..0]) == Ok((st, []));
    assert [] + [first.value.1] == [first.value.1];
    assert ProcessItems(st, [e]) == Ok((first.value.0, [first.value.1]));
    assert [e, e][..1] == [e];
    assert ProcessItem(first.value.0, e) == Err(AlreadySold);
  }

  /**
   * A mobile whose stored selling price is below its purchase price (which an
   * update of its purchase price alone can leave) still sells: the sale commits
   * with a line and a header whose profit is negative.
   */
  lemma LossMakingSaleCommits(s: DbState, id: nat, user: int, today: string)
    requires StateValid(s) && id > 0 && id in s.mobiles && s.mobiles[id].status == InStock
    requires s.mobiles[id].sellingPrice < s.mobiles[id].purchasePrice
    ensures var req := SaleRequest(None, Some([RequestItem(Some("mobile"), Some(id), None)]), None, None, None);
      && CreateSaleSpec(s, req, user, today).Ok?
      && CreateSaleSpec(s, req, user, today).value.sales[s.nextSaleId].profit < 0
  {
    var e := RequestItem(Some("mobile"), Some(id), None);
    var req := SaleRequest(None, Some([e]), None, None, None);
    var st := Stock(s.mobiles, s.accessories);
    var m := s.mobiles[id];
    var first := ProcessItem(st, e);
    var l := Line(MobileItem, id, DisplayName(m), 1, m.sellingPrice, m.sellingPrice, CalculateProfit(m));
    assert first == Ok((first.value.0, l));
    assert [e][..0] == [];
    assert ProcessItems(st, [e][..0]) == Ok((st, []));
    assert [] + [l] == [l];
    assert ProcessItems(st, [e]) == Ok((first.value.0, [l]));
    assert [l][..0] == [];
    assert Total([l]) == Total([]) + l.totalPrice && Profit([l]) == Profit([]) + l.profit;
    assert AllLinesValid([l]);
    var h := Header(req, [l], user, today);
    assert SaleValid(h) && h.profit < 0;
    assert CreateSaleSpec(s, req, user, today) == Ok(Recorded(s, first.value.0, h, [l]));
  }

  /** A repeated accessory is checked against the stock the earlier entry left. */
  lemma RepeatedAccessoryChecksRemaining(st: Stock, id: nat, q1: int, q2: int)
    requires id > 0 && id in st.accessories
    requires q1 <= st.accessories[id].quantity < q1 + q2
    ensures var e1 := RequestItem(Some("accessory"), Some(id), Some(q1));
      var e2 := RequestItem(Some("accessory"), Some(id), Some(q2));
      ProcessItems(st, [e1, e2]) == Err(SaleError.InsufficientStock)
  {
    var e1 := RequestItem(Some("accessory"), Some(id), Some(q1));
    var e2 := RequestItem(Some("accessory"), Some(id), Some(q2));
    var first := ProcessItem(st, e1);
    assert first.Ok? && first.value.0.accessories[id].quantity == st.accessories[id].quantity - q1;
    assert [e1][..0] == [];
    assert ProcessItems(st, [e1][..0]) == Ok((st, []));
    assert [] + [first.value.1] == [first.value.1];
    assert ProcessItems(st, [e1]) == Ok((first.value.0, [first.value.1]));
    assert [e1, e2][..1] == [e1];
    assert ProcessItem(first.value.0, e2) == Err(SaleError.InsufficientStock);
  }
}
