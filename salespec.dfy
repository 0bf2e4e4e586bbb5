/**
 * The specification of the sale transaction engine: `createSale` walks a cart in order, selling each
 * mobile (status `in_stock` to `sold`) and taking each accessory's quantity off
 * its stock, then writes one sale header and one line per cart entry;
 * `deleteSale` puts the stock back and removes the sale with its lines.  Both
 * run in one database transaction, modelled as a snapshot of the whole store
 * that every failure path restores.
 */
module SaleSpec {
  import opened Wrappers
  import opened Text
  import opened MobileModel
  import opened AccessoryModel
  import opened SaleModel
  import opened SaleItemModel
  import opened Database

  datatype SaleError =
    | EmptyCart         // no `items`, or an empty list
    | MalformedItem     // an entry without a truthy `itemType` or `itemId`
    | InvalidItemType   // `itemType` other than "mobile" or "accessory"
    | NotFound          // no mobile or accessory with that id, or no such sale
    | AlreadySold       // the mobile's status is `sold`
    | InsufficientStock // fewer accessories on hand than requested
    | StorageFailure    // a write the model validators refuse: the catch block rolls back

  /** One cart entry of the request body; `None` is a field that was not sent. */
  datatype RequestItem = RequestItem(itemType: Option<string>, itemId: Option<int>, quantity: Option<int>)

  datatype SaleRequest = SaleRequest(
    customerId: Option<int>,
    items: Option<seq<RequestItem>>,
    paymentMethod: Option<string>,
    saleDate: Option<string>,
    notes: Option<string>)

  /** The two tables a sale changes. */
  datatype Stock = Stock(mobiles: map<nat, Mobile>, accessories: map<nat, Accessory>)

  /** JavaScript truthiness of a numeric id. */
  predicate HasId(n: Option<int>) { n.Some? && n.value != 0 }

  /** The quantity an entry asks for: `quantity = 1` applies only when the field is absent. */
  function Requested(item: RequestItem): int {
    item.quantity.GetOr(1)
  }

  /** One pass of the loop body over the stock as earlier entries left it. */
  function ProcessItem(st: Stock, item: RequestItem): Result<(Stock, Line), SaleError> {
    if !HasText(item.itemType) || !HasId(item.itemId) then Err(MalformedItem)
    else if item.itemType.value == "mobile" then
      if item.itemId.value < 0 || item.itemId.value !in st.mobiles then Err(NotFound)
      else
        var id: nat := item.itemId.value;
        var m := st.mobiles[id];
        if m.status == Sold then Err(AlreadySold)
        else
          var sold := st.(mobiles := st.mobiles[id := m.(status := Sold)]);
          Ok((sold, Line(MobileItem, id, DisplayName(m), 1, m.sellingPrice, m.sellingPrice, CalculateProfit(m))))
    else if item.itemType.value == "accessory" then
      if item.itemId.value < 0 || item.itemId.value !in st.accessories then Err(NotFound)
      else
        var id: nat := item.itemId.value;
        var a := st.accessories[id];
        var q := Requested(item);
        match Decreased(a, q)
        case Err(_) => Err(SaleError.InsufficientStock)
        case Ok(a') =>
          Ok((st.(accessories := st.accessories[id := a']),
              Line(AccessoryItem, id, a.name, q, a.sellingPrice, a.sellingPrice * q, UnitProfit(a) * q)))
    else Err(InvalidItemType)
  }

  /** The whole loop: entries in order, each seeing the stock the earlier ones left; the first failure wins. */
  function ProcessItems(st: Stock, items: seq<RequestItem>): Result<(Stock, seq<Line>), SaleError> {
    if items == [] then Ok((st, []))
    else
      match ProcessItems(st, items[..|items| - 1])
      case Err(e) => Err(e)
      case Ok((cur, lines)) =>
        match ProcessItem(cur, items[|items| - 1])
        case Err(e) => Err(e)
        case Ok((next, line)) => Ok((next, lines + [line]))
  }

  /**
   * The row `Sale.create` writes: date, customer and payment method fall back
   * on `||`; the payment method text is stored as sent (see `PaymentMethod`).
   */
  function Header(req: SaleRequest, lines: seq<Line>, user: int, today: string): Sale {
    Sale(
      if HasText(req.saleDate) then req.saleDate.value else today,
      if HasId(req.customerId) then req.customerId else None,
      Total(lines),
      Profit(lines),
      if HasText(req.paymentMethod) then req.paymentMethod.value else PaymentMethodName(Cash),
      user,
      req.notes)
  }

  /** `createSale` on the database content: the new content, or the error that rolls everything back. */
  function CreateSaleSpec(s: DbState, req: SaleRequest, user: int, today: string): Result<DbState, SaleError> {
    if req.items.None? || req.items.value == [] then Err(EmptyCart)
    else
      match ProcessItems(Stock(s.mobiles, s.accessories), req.items.value)
      case Err(e) => Err(e)
      case Ok((st, lines)) =>
        var header := Header(req, lines, user, today);
        if !SaleValid(header) || !AllLinesValid(lines) then Err(StorageFailure)
        else Ok(Recorded(s, st, header, lines))
  }

  /** The database once the sold stock, the header under the next sale id and its lines under the next line ids are written. */
  function Recorded(s: DbState, st: Stock, header: Sale, lines: seq<Line>): DbState {
    s.(mobiles := st.mobiles,
       accessories := st.accessories,
       sales := s.sales[s.nextSaleId := header],
       saleItems := AppendLines(s.saleItems, s.nextSaleId, lines, s.nextSaleItemId),
       nextSaleId := s.nextSaleId + 1,
       nextSaleItemId := s.nextSaleItemId + |lines|)
  }

  /** Undoing one line's stock effect; a line whose item no longer exists is skipped. */
  function RestockLine(st: Stock, l: Line): Stock {
    match l.itemType
    case MobileItem =>
      if l.itemId in st.mobiles then st.(mobiles := st.mobiles[l.itemId := st.mobiles[l.itemId].(status := InStock)])
      else st
    case AccessoryItem =>
      if l.itemId in st.accessories then
        st.(accessories := st.accessories[l.itemId :=
          st.accessories[l.itemId].(quantity := st.accessories[l.itemId].quantity + l.quantity)])
      else st
  }

  /** The restock loop of `deleteSale` over the lines in order. */
  function Restock(st: Stock, lines: seq<Line>): Stock {
    if lines == [] then st else RestockLine(Restock(st, lines[..|lines| - 1]), lines[|lines| - 1])
  }

  /** `deleteSale` on the database content. */
  function DeleteSaleSpec(s: DbState, id: int): Result<DbState, SaleError> {
    if id < 0 || id !in s.sales then Err(NotFound)
    else
      var st := Restock(Stock(s.mobiles, s.accessories), SaleLines(s.saleItems, id, s.nextSaleItemId));
      Ok(s.(mobiles := st.mobiles,
            accessories := st.accessories,
            saleItems := WithoutSale(s.saleItems, id),
            sales := s.sales - {id}))
  }

  /** Whether some line sells mobile `id`. */
  predicate SellsMobile(lines: seq<Line>, id: nat) {
    lines != [] &&
    (SellsMobile(lines[..|lines| - 1], id) ||
     (lines[|lines| - 1].itemType == MobileItem && lines[|lines| - 1].itemId == id))
  }

  /** The units of accessory `id` the lines take, summed. */
  function QtyOf(lines: seq<Line>, id: nat): int {
    if lines == [] then 0
    else
      QtyOf(lines[..|lines| - 1], id) +
      (if lines[|lines| - 1].itemType == AccessoryItem && lines[|lines| - 1].itemId == id then lines[|lines| - 1].quantity else 0)
  }

  /** No two lines sell the same mobile. */
  predicate MobilesDistinct(lines: seq<Line>) {
    forall j, k :: 0 <= j < k < |lines| && lines[j].itemType == MobileItem && lines[k].itemType == MobileItem ==>
      lines[j].itemId != lines[k].itemId
  }

  /**
   * The stock `after` selling `lines` from `before`: the same ids; each mobile a
   * line sells was in stock and is now sold, the others untouched; each
   * accessory has exactly its sold units fewer, and never went below zero.
   */
  ghost predicate StockAfter(before: Stock, lines: seq<Line>, after: Stock) {
    && after.mobiles.Keys == before.mobiles.Keys
    && after.accessories.Keys == before.accessories.Keys
    && (forall id :: id in before.mobiles ==>
          after.mobiles[id] == (if SellsMobile(lines, id) then before.mobiles[id].(status := Sold) else before.mobiles[id]))
    && (forall id :: SellsMobile(lines, id) ==> id in before.mobiles && before.mobiles[id].status == InStock)
    && (forall id :: id in before.accessories ==>
          && after.accessories[id] == before.accessories[id].(quantity := before.accessories[id].quantity - QtyOf(lines, id))
          && QtyOf(lines, id) <= before.accessories[id].quantity)
  }

  /** The stock `after` putting `lines` back into `before`: sold mobiles in stock again, units added back. */
  ghost predicate StockRestored(before: Stock, lines: seq<Line>, after: Stock) {
    && after.mobiles.Keys == before.mobiles.Keys
    && after.accessories.Keys == before.accessories.Keys
    && (forall id :: id in before.mobiles ==>
          after.mobiles[id] == (if SellsMobile(lines, id) then before.mobiles[id].(status := InStock) else before.mobiles[id]))
    && (forall id :: id in before.accessories ==>
          after.accessories[id] == before.accessories[id].(quantity := before.accessories[id].quantity + QtyOf(lines, id)))
  }

  /**
   * The line an entry yields, priced from the stock as it was before the sale:
   * a mobile is one unit at its selling price whatever quantity was asked for;
   * an accessory is the requested units at its selling price.
   */
  predicate LineMatches(st: Stock, item: RequestItem, l: Line) {
    && item.itemId == Some(l.itemId as int)
    && item.itemType == Some(ItemTypeName(l.itemType))
    && match l.itemType
       case MobileItem =>
         && l.itemId in st.mobiles
         && var m := st.mobiles[l.itemId];
            l == Line(MobileItem, l.itemId, DisplayName(m), 1, m.sellingPrice, m.sellingPrice, CalculateProfit(m))
       case AccessoryItem =>
         && l.itemId in st.accessories
         && var a := st.accessories[l.itemId];
            var q := Requested(item);
            l == Line(AccessoryItem, l.itemId, a.name, q, a.sellingPrice, a.sellingPrice * q, UnitProfit(a) * q)
  }
}
