/**
 * The sale transaction engine as imperative code over the store: the
 * `createSale` loop against the live tables, the header and line writes, the
 * `deleteSale` restock loop, each failure restoring the snapshot.
 */
module SaleController {
  import opened Wrappers
  import opened Text
  import opened MobileModel
  import opened AccessoryModel
  import opened SaleModel
  import opened SaleItemModel
  import opened Database
  import opened SaleSpec
  import opened SaleProofs

  /** The loop body of `createSale` for one entry, against the live tables. */
  method ApplyItem(db: Store, item: RequestItem) returns (r: Result<Line, SaleError>)
    modifies db
    ensures var out := ProcessItem(Stock(old(db.mobiles), old(db.accessories)), item);
      && (out.Ok? ==> r == Ok(out.value.1) && Stock(db.mobiles, db.accessories) == out.value.0)
      && (out.Err? ==> r == Err(out.error))
    ensures db.State() == old(db.State()).(mobiles := db.mobiles, accessories := db.accessories)
  {
    if !HasText(item.itemType) || !HasId(item.itemId) {
      return Err(MalformedItem);
    }
    var itemType := item.itemType.value;
    var itemId := item.itemId.value;
    if itemType == "mobile" {
      if itemId < 0 || itemId !in db.mobiles {
        return Err(NotFound);
      }
      var mobile := db.mobiles[itemId];
      if mobile.status == Sold {
        return Err(AlreadySold);
      }
      db.mobiles := db.mobiles[itemId := mobile.(status := Sold)];
      var itemProfit := mobile.sellingPrice - mobile.purchasePrice;
      r := Ok(Line(MobileItem, itemId, DisplayName(mobile), 1, mobile.sellingPrice, mobile.sellingPrice, itemProfit));
    } else if itemType == "accessory" {
      var quantity := Requested(item);
      if itemId < 0 || itemId !in db.accessories {
        return Err(NotFound);
      }
      var accessory := db.accessories[itemId];
      if accessory.quantity < quantity {
        return Err(SaleError.InsufficientStock);
      }
      db.accessories := db.accessories[itemId := accessory.(quantity := accessory.quantity - quantity)];
      var unitPrice := accessory.sellingPrice;
      var itemTotalPrice := unitPrice * quantity;
      var itemProfit := (accessory.sellingPrice - accessory.purchasePrice) * quantity;
      r := Ok(Line(AccessoryItem, itemId, accessory.name, quantity, unitPrice, itemTotalPrice, itemProfit));
    } else {
      return Err(InvalidItemType);
    }
  }

  /**
   * The `for` loop of `createSale`: each entry applied to the live tables in
   * order, the running totals kept beside the lines.  On failure the tables
   * hold the partial effect; the caller rolls back.
   */
  method ProcessCart(db: Store, items: seq<RequestItem>) returns (r: Result<seq<Line>, SaleError>, totalAmount: int, totalProfit: int)
    modifies db
    ensures var out := ProcessItems(Stock(old(db.mobiles), old(db.accessories)), items);
      && (out.Ok? ==> r == Ok(out.value.1) && Stock(db.mobiles, db.accessories) == out.value.0)
      && (out.Err? ==> r == Err(out.error))
    ensures r.Ok? ==> totalAmount == Total(r.value) && totalProfit == Profit(r.value)
    ensures db.State() == old(db.State()).(mobiles := db.mobiles, accessories := db.accessories)
  {
    var st0 := Stock(db.mobiles, db.accessories);
    totalAmount := 0;
    totalProfit := 0;
    var processed: seq<Line> := [];
    var i := 0;
    while i < |items|
      invariant 0 <= i <= |items|
      invariant ProcessItems(st0, items[..i]) == Ok((Stock(db.mobiles, db.accessories), processed))
      invariant totalAmount == Total(processed) && totalProfit == Profit(processed)
      invariant db.State() == old(db.State()).(mobiles := db.mobiles, accessories := db.accessories)
    {
      ProcessItemsNext(st0, items, i);
      var line := ApplyItem(db, items[i]);
      if line.Err? {
        ProcessItemsFirstError(st0, items, i + 1);
        return Err(line.error), totalAmount, totalProfit;
      }
      var next := processed + [line.value];
      assert next[..|next| - 1] == processed && next[|next| - 1] == line.value;
      assert Total(next) == Total(processed) + line.value.totalPrice;
      assert Profit(next) == Profit(processed) + line.value.profit;
      assert ProcessItems(st0, items[..i + 1]) == Ok((Stock(db.mobiles, db.accessories), next));
      processed := next;
      totalAmount := totalAmount + line.value.totalPrice;
      totalProfit := totalProfit + line.value.profit;
      i := i + 1;
    }
    assert items[..|items|] == items;
    r := Ok(processed);
  }

  /**
   * The `SaleItem.create` loop: one row per line under consecutive keys.  A line
   * the model validators refuse stops it with `false`, the rows before it
   * written; the caller rolls back.
   */
  method WriteLines(db: Store, saleId: nat, lines: seq<Line>) returns (ok: bool)
    modifies db
    ensures ok <==> AllLinesValid(lines)
    ensures ok ==> db.State() == old(db.State()).(
      saleItems := AppendLines(old(db.saleItems), saleId, lines, old(db.nextSaleItemId)),
      nextSaleItemId := old(db.nextSaleItemId) + |lines|)
    ensures !ok ==> db.State() == old(db.State()).(saleItems := db.saleItems, nextSaleItemId := db.nextSaleItemId)
  {
    var from := db.nextSaleItemId;
    var j := 0;
    while j < |lines|
      invariant 0 <= j <= |lines|
      invariant AllLinesValid(lines[..j])
      invariant db.saleItems == AppendLines(old(db.saleItems), saleId, lines[..j], from)
      invariant db.nextSaleItemId == from + j
      invariant db.State() == old(db.State()).(saleItems := db.saleItems, nextSaleItemId := db.nextSaleItemId)
    {
      if !LineValid(lines[j]) {
        return false;
      }
      assert lines[..j + 1][..j] == lines[..j];
      db.saleItems := db.saleItems[db.nextSaleItemId := SaleItem(saleId, lines[j])];
      db.nextSaleItemId := db.nextSaleItemId + 1;
      j := j + 1;
    }
    assert lines[..|lines|] == lines;
    ok := true;
  }

  /**
   * `createSale`.  On success the result is the new sale's id and the database
   * holds what `CreateSaleSpec` describes; on any failure the database is
   * exactly as it was.
   */
  method CreateSale(db: Store, req: SaleRequest, user: int, today: string) returns (r: Result<nat, SaleError>)
    requires db.Valid()
    modifies db
    ensures db.Valid()
    ensures CreateSaleSpec(old(db.State()), req, user, today).Err? ==>
      r == Err(CreateSaleSpec(old(db.State()), req, user, today).error) && db.State() == old(db.State())
    ensures CreateSaleSpec(old(db.State()), req, user, today).Ok? ==>
      r == Ok(old(db.nextSaleId)) && db.State() == CreateSaleSpec(old(db.State()), req, user, today).value
  {
    var snapshot := db.State();
    if req.items.None? || |req.items.value| == 0 {
      return Err(EmptyCart);
    }
    var processed, totalAmount, totalProfit := ProcessCart(db, req.items.value);
    if processed.Err? {
      db.Restore(snapshot);
      return Err(processed.error);
    }
    var lines := processed.value;
    var sold := Stock(db.mobiles, db.accessories);

    var header := Sale(
      if HasText(req.saleDate) then req.saleDate.value else today,
      if HasId(req.customerId) then req.customerId else None,
      totalAmount,
      totalProfit,
      if HasText(req.paymentMethod) then req.paymentMethod.value else "cash",
      user,
      req.notes);
    assert Header(req, lines, user, today) == header;
    if !SaleValid(header) {
      db.Restore(snapshot);
      return Err(StorageFailure);
    }
    var saleId := db.nextSaleId;
    db.sales := db.sales[saleId := header];
    db.nextSaleId := db.nextSaleId + 1;

    var written := WriteLines(db, saleId, lines);
    if !written {
      db.Restore(snapshot);
      return Err(StorageFailure);
    }
    assert db.State() == Recorded(snapshot, sold, header, lines);
    CreateSaleKeepsValid(snapshot, req, user, today);
    r := Ok(saleId);
  }

  /**
   * `deleteSale`.  An absent sale is `NotFound` with nothing changed; otherwise
   * the stock comes back and the sale disappears with its lines, as `DeleteSaleSpec` says.
   */
  method DeleteSale(db: Store, id: int) returns (r: Result<(), SaleError>)
    requires db.Valid()
    modifies db
    ensures db.Valid()
    ensures DeleteSaleSpec(old(db.State()), id).Err? ==> r == Err(NotFound) && db.State() == old(db.State())
    ensures DeleteSaleSpec(old(db.State()), id).Ok? ==> r == Ok(()) && db.State() == DeleteSaleSpec(old(db.State()), id).value
  {
    if id < 0 || id !in db.sales {
      return Err(NotFound);
    }
    var snapshot := db.State();
    var lines := SaleLines(db.saleItems, id, db.nextSaleItemId);
    RestockLines(db, lines);
    db.saleItems := WithoutSale(db.saleItems, id);
    db.sales := db.sales - {id};
    assert db.State() == DeleteSaleSpec(snapshot, id).value;
    DeleteSaleKeepsValid(snapshot, id);
    r := Ok(());
  }

  /**
   * The loop of `deleteSale` over the sale's lines: each mobile still present
   * is in stock again and each accessory still present gets its units back,
   * as `Restock` says; only the stock tables change.
   */
  method RestockLines(db: Store, lines: seq<Line>)
    modifies db
    ensures Stock(db.mobiles, db.accessories) == Restock(old(Stock(db.mobiles, db.accessories)), lines)
    ensures db.State() == old(db.State()).(mobiles := db.mobiles, accessories := db.accessories)
  {
    var st0 := Stock(db.mobiles, db.accessories);
    var i := 0;
    while i < |lines|
      invariant 0 <= i <= |lines|
      invariant Stock(db.mobiles, db.accessories) == Restock(st0, lines[..i])
      invariant db.State() == old(db.State()).(mobiles := db.mobiles, accessories := db.accessories)
    {
      assert lines[..i + 1][..i] == lines[..i];
      var item := lines[i];
      var before := Stock(db.mobiles, db.accessories);
      assert Restock(st0, lines[..i + 1]) == RestockLine(before, item);
      if item.itemType == MobileItem {
        if item.itemId in db.mobiles {
          db.mobiles := db.mobiles[item.itemId := db.mobiles[item.itemId].(status := InStock)];
        }
      } else if item.itemId in db.accessories {
        var accessory := db.accessories[item.itemId];
        db.accessories := db.accessories[item.itemId := accessory.(quantity := accessory.quantity + item.quantity)];
      }
      assert Stock(db.mobiles, db.accessories) == RestockLine(before, item);
      i := i + 1;
    }
    assert lines[..|lines|] == lines;
  }
}
