/**
 * The SQLite database the controllers share, as one object holding a map per
 * table (primary key to row) and the next primary key of the two tables that
 * sales write to.  `DbState` is the same content as a value, so that the
 * controllers' specifications and the transaction snapshot can talk about it.
 */
module Database {
  import opened Wrappers
  import opened MobileModel
  import opened AccessoryModel
  import opened SaleModel
  import opened SaleItemModel

  /** A `customers` row as the controllers use it: searched by name, phone and email. */
  datatype Customer = Customer(name: string, phone: string, email: Option<string>, address: Option<string>)

  datatype DbState = DbState(
    mobiles: map<nat, Mobile>,
    accessories: map<nat, Accessory>,
    customers: map<nat, Customer>,
    sales: map<nat, Sale>,
    saleItems: map<nat, SaleItem>,
    nextSaleId: nat,
    nextSaleItemId: nat)

  /**
   * The lines of sale `saleId` among the rows with a key below `upTo`, in key
   * order, as the `items` association of a sale returns them.
   */
  function SaleLines(items: map<nat, SaleItem>, saleId: nat, upTo: nat): seq<Line> {
    if upTo == 0 then []
    else
      SaleLines(items, saleId, upTo - 1) +
      (if upTo - 1 in items && items[upTo - 1].saleId == saleId then [items[upTo - 1].line] else [])
  }

  /**
   * Every stored mobile passes the checks of each of its columns, and no IMEI
   * occurs twice.  The order of its two prices is not kept (see `Stored`).
   */
  predicate MobilesValid(mobiles: map<nat, Mobile>) {
    (forall id :: id in mobiles ==> Stored(mobiles[id])) && UniqueImeis(mobiles)
  }

  /** Every stored accessory passes the checks of each of its columns (see `AccessoryStored`). */
  predicate AccessoriesValid(accessories: map<nat, Accessory>) {
    forall id :: id in accessories ==> AccessoryStored(accessories[id])
  }

  /** Keys below the counters, rows that pass their validators, and every line attached to an existing sale. */
  predicate SalesWellFormed(s: DbState) {
    && (forall id :: id in s.sales ==> id < s.nextSaleId && SaleValid(s.sales[id]))
    && (forall k :: k in s.saleItems ==>
          k < s.nextSaleItemId && LineValid(s.saleItems[k].line) && s.saleItems[k].saleId in s.sales)
  }

  /** Each sale header carries the sums of its own lines. */
  predicate TotalsMatch(s: DbState) {
    forall id :: id in s.sales ==>
      && s.sales[id].totalAmount == Total(SaleLines(s.saleItems, id, s.nextSaleItemId))
      && s.sales[id].profit == Profit(SaleLines(s.saleItems, id, s.nextSaleItemId))
  }

  predicate StateValid(s: DbState) {
    MobilesValid(s.mobiles) && AccessoriesValid(s.accessories) && SalesWellFormed(s) && TotalsMatch(s)
  }

  /** The sales tables do not look at the mobiles, so a valid new mobile table keeps the database valid. */
  lemma WithMobilesValid(s: DbState, mobiles: map<nat, Mobile>)
    requires StateValid(s) && MobilesValid(mobiles)
    ensures StateValid(s.(mobiles := mobiles))
  {
    var s' := s.(mobiles := mobiles);
    assert s'.sales == s.sales && s'.saleItems == s.saleItems && s'.nextSaleId == s.nextSaleId;
    assert s'.nextSaleItemId == s.nextSaleItemId && s'.accessories == s.accessories;
  }

  /** `SaleItem.destroy({ where: { saleId } })`: every line of that sale removed, all others kept. */
  function WithoutSale(items: map<nat, SaleItem>, saleId: nat): (r: map<nat, SaleItem>)
    ensures forall k :: k in r <==> k in items && items[k].saleId != saleId
    ensures forall k :: k in r ==> r[k] == items[k]
  {
    map k | k in items && items[k].saleId != saleId :: items[k]
  }

  /** `lines` written as rows of sale `saleId` under consecutive keys from `from` on. */
  function AppendLines(items: map<nat, SaleItem>, saleId: nat, lines: seq<Line>, from: nat): (r: map<nat, SaleItem>)
    ensures forall k :: k in r <==> k in items || from <= k < from + |lines|
    ensures forall k :: from <= k < from + |lines| ==> r[k] == SaleItem(saleId, lines[k - from])
    ensures forall k :: k in items && !(from <= k < from + |lines|) ==> r[k] == items[k]
  {
    if lines == [] then items
    else AppendLines(items, saleId, lines[..|lines| - 1], from)[from + |lines| - 1 := SaleItem(saleId, lines[|lines| - 1])]
  }

  /** Rows at or above `upTo` do not contribute. */
  lemma {:induction false} SaleLinesIgnoresHigherKey(items: map<nat, SaleItem>, saleId: nat, upTo: nat, k: nat, v: SaleItem)
    requires k >= upTo
    ensures SaleLines(items[k := v], saleId, upTo) == SaleLines(items, saleId, upTo)
  {
    if upTo > 0 {
      SaleLinesIgnoresHigherKey(items, saleId, upTo - 1, k, v);
    }
  }

  /** A sale none of whose rows lie below `upTo` has no lines there. */
  lemma {:induction false} SaleLinesNone(items: map<nat, SaleItem>, saleId: nat, upTo: nat)
    requires forall k :: k in items && k < upTo ==> items[k].saleId != saleId
    ensures SaleLines(items, saleId, upTo) == []
  {
    if upTo > 0 {
      SaleLinesNone(items, saleId, upTo - 1);
    }
  }

  /** Scanning past the last key changes nothing. */
  lemma {:induction false} SaleLinesBeyondKeys(items: map<nat, SaleItem>, saleId: nat, upTo: nat, upTo': nat)
    requires upTo <= upTo'
    requires forall k :: k in items ==> k < upTo
    ensures SaleLines(items, saleId, upTo') == SaleLines(items, saleId, upTo)
    decreases upTo' - upTo
  {
    if upTo' > upTo {
      SaleLinesBeyondKeys(items, saleId, upTo, upTo' - 1);
    }
  }

  /** The lines of a sale are rows of the table, so they pass validation when every row does. */
  lemma {:induction false} SaleLinesValid(items: map<nat, SaleItem>, saleId: nat, upTo: nat)
    requires forall k :: k in items ==> LineValid(items[k].line)
    ensures AllLinesValid(SaleLines(items, saleId, upTo))
  {
    if upTo > 0 {
      SaleLinesValid(items, saleId, upTo - 1);
    }
  }

  /** Rows of other sales between `lo` and `hi` add nothing to a sale's lines. */
  lemma {:induction false} SaleLinesForeignRows(items: map<nat, SaleItem>, saleId: nat, lo: nat, hi: nat)
    requires lo <= hi
    requires forall k :: lo <= k < hi && k in items ==> items[k].saleId != saleId
    ensures SaleLines(items, saleId, hi) == SaleLines(items, saleId, lo)
    decreases hi - lo
  {
    if hi > lo {
      SaleLinesForeignRows(items, saleId, lo, hi - 1);
    }
  }

  /** Two tables with the same rows below `upTo` give every sale the same lines there. */
  lemma {:induction false} SaleLinesSameRows(a: map<nat, SaleItem>, b: map<nat, SaleItem>, saleId: nat, upTo: nat)
    requires forall k :: k < upTo ==> (k in a <==> k in b)
    requires forall k :: k < upTo && k in a ==> a[k] == b[k]
    ensures SaleLines(a, saleId, upTo) == SaleLines(b, saleId, upTo)
  {
    if upTo > 0 {
      SaleLinesSameRows(a, b, saleId, upTo - 1);
    }
  }

  /** Appended rows of another sale leave a sale's lines as they were. */
  lemma AppendLinesOther(items: map<nat, SaleItem>, saleId: nat, lines: seq<Line>, from: nat, other: nat)
    requires other != saleId
    ensures SaleLines(AppendLines(items, saleId, lines, from), other, from + |lines|) == SaleLines(items, other, from)
  {
    var r := AppendLines(items, saleId, lines, from);
    SaleLinesForeignRows(r, other, from, from + |lines|);
    SaleLinesSameRows(r, items, other, from);
  }

  /** The lines of a sale that had no rows before are exactly the appended ones, in order. */
  lemma {:induction false} AppendLinesOwn(items: map<nat, SaleItem>, saleId: nat, lines: seq<Line>, from: nat)
    requires forall k :: k in items && k < from ==> items[k].saleId != saleId
    ensures SaleLines(AppendLines(items, saleId, lines, from), saleId, from + |lines|) == lines
    decreases |lines|
  {
    if lines == [] {
      SaleLinesNone(items, saleId, from);
    } else {
      var n := |lines|;
      assert lines[..n - 1] + [lines[n - 1]] == lines;
      var m := AppendLines(items, saleId, lines[..n - 1], from);
      SaleLinesIgnoresHigherKey(m, saleId, from + n - 1, from + n - 1, SaleItem(saleId, lines[n - 1]));
      AppendLinesOwn(items, saleId, lines[..n - 1], from);
    }
  }

  /** Appending the rows of a sale that had none below `from`: its lines are the appended ones, and every other sale keeps its lines. */
  lemma AppendLinesSales(items: map<nat, SaleItem>, saleId: nat, lines: seq<Line>, from: nat)
    requires forall k :: k in items && k < from ==> items[k].saleId != saleId
    ensures SaleLines(AppendLines(items, saleId, lines, from), saleId, from + |lines|) == lines
    ensures forall other :: other != saleId ==>
      SaleLines(AppendLines(items, saleId, lines, from), other, from + |lines|) == SaleLines(items, other, from)
  {
    AppendLinesOwn(items, saleId, lines, from);
    forall other | other != saleId
      ensures SaleLines(AppendLines(items, saleId, lines, from), other, from + |lines|) == SaleLines(items, other, from)
    {
      AppendLinesOther(items, saleId, lines, from, other);
    }
  }

  /** Removing the rows of one sale leaves every other sale's lines as they were. */
  lemma {:induction false} WithoutSaleOther(items: map<nat, SaleItem>, saleId: nat, upTo: nat, other: nat)
    requires other != saleId
    ensures SaleLines(WithoutSale(items, saleId), other, upTo) == SaleLines(items, other, upTo)
  {
    if upTo > 0 {
      WithoutSaleOther(items, saleId, upTo - 1, other);
    }
  }

  /** Removing the rows just appended for a sale that had none gives back the original table. */
  lemma WithoutAppended(items: map<nat, SaleItem>, saleId: nat, lines: seq<Line>, from: nat)
    requires forall k :: k in items ==> k < from && items[k].saleId != saleId
    ensures WithoutSale(AppendLines(items, saleId, lines, from), saleId) == items
  {
    var r := WithoutSale(AppendLines(items, saleId, lines, from), saleId);
    assert forall k :: k in r <==> k in items;
  }

  /** The database connection: one map per table, plus the next key of `sales` and `sale_items`. */
  class Store {
    var mobiles: map<nat, Mobile>
    var accessories: map<nat, Accessory>
    var customers: map<nat, Customer>
    var sales: map<nat, Sale>
    var saleItems: map<nat, SaleItem>
    var nextSaleId: nat
    var nextSaleItemId: nat

    /** The whole content of the database, as a value. */
    function State(): DbState
      reads this
    {
      DbState(mobiles, accessories, customers, sales, saleItems, nextSaleId, nextSaleItemId)
    }

    ghost predicate Valid()
      reads this
    {
      StateValid(State())
    }

    constructor (s: DbState)
      requires StateValid(s)
      ensures Valid() && State() == s
    {
      mobiles := s.mobiles;
      accessories := s.accessories;
      customers := s.customers;
      sales := s.sales;
      saleItems := s.saleItems;
      nextSaleId := s.nextSaleId;
      nextSaleItemId := s.nextSaleItemId;
    }

    /** `t.rollback()`: every table and counter back to the snapshot taken when the transaction began. */
    method Restore(s: DbState)
      modifies this
      ensures State() == s
    {
      mobiles := s.mobiles;
      accessories := s.accessories;
      customers := s.customers;
      sales := s.sales;
      saleItems := s.saleItems;
      nextSaleId := s.nextSaleId;
      nextSaleItemId := s.nextSaleItemId;
    }
  }
}
