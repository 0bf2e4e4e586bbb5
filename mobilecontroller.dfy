/**
 * The mobile endpoints' logic: the list filter and its pagination, the brand
 * list, and the guard-then-write `updateMobile` and `deleteMobile` on the
 * `mobiles` table.
 */
module MobileController {
  import opened Wrappers
  import opened Text
  import opened MobileModel
  import opened Database
  import opened Pagination

  /** The query string of `GET /api/mobiles`; `page` and `limit` as `parseInt` read them. */
  datatype MobileQuery = MobileQuery(status: Option<string>, brand: Option<string>, search: Option<string>)

  /**
   * The `where` clause: each truthy parameter adds a condition, all of them
   * must hold; `search` is a `LIKE '%search%'` on brand, model or IMEI.
   */
  predicate MobileMatches(m: Mobile, q: MobileQuery) {
    && (HasText(q.status) ==> StatusName(m.status) == q.status.value)
    && (HasText(q.brand) ==> m.brand == q.brand.value)
    && (HasText(q.search) ==>
          Like(m.brand, q.search.value) || Like(m.model, q.search.value) || Like(m.imei, q.search.value))
  }

  /** The rows the query selects, in the order the table is read. */
  function FilterMobiles(rows: seq<Mobile>, q: MobileQuery): (r: seq<Mobile>)
    ensures |r| <= |rows|
    ensures forall k :: 0 <= k < |r| ==> MobileMatches(r[k], q)
    ensures forall m {:trigger m in r} :: m in r <==> m in rows && MobileMatches(m, q)
  {
    if rows == [] then []
    else
      var init := FilterMobiles(rows[..|rows| - 1], q);
      assert rows == rows[..|rows| - 1] + [rows[|rows| - 1]];
      if MobileMatches(rows[|rows| - 1], q) then init + [rows[|rows| - 1]] else init
  }

  /**
   * The filter works row by row in table order: filtering two runs of rows
   * one after the other is filtering each (and `FilterMobilesSingle` says what
   * it does to one row).
   */
  lemma {:induction false} FilterMobilesAppend(a: seq<Mobile>, b: seq<Mobile>, q: MobileQuery)
    ensures FilterMobiles(a + b, q) == FilterMobiles(a, q) + FilterMobiles(b, q)
    decreases |b|
  {
    if b == [] {
      assert a + b == a;
    } else {
      var b', x := b[..|b| - 1], b[|b| - 1];
      var last := if MobileMatches(x, q) then [x] else [];
      assert (a + b)[..|a + b| - 1] == a + b';
      assert (a + b)[|a + b| - 1] == x;
      var fa, fb' := FilterMobiles(a, q), FilterMobiles(b', q);
      assert FilterMobiles(a + b, q) == FilterMobiles(a + b', q) + last;
      assert FilterMobiles(b, q) == fb' + last;
      FilterMobilesAppend(a, b', q);
      assert (fa + fb') + last == fa + (fb' + last);
    }
  }

  /** A single row is kept exactly when it matches. */
  lemma FilterMobilesSingle(m: Mobile, q: MobileQuery)
    ensures FilterMobiles([m], q) == if MobileMatches(m, q) then [m] else []
  {
    assert [m][..0] == [];
  }

  /** With no truthy parameter every row is listed. */
  lemma {:induction false} EmptyQueryListsAll(rows: seq<Mobile>)
    ensures FilterMobiles(rows, MobileQuery(None, None, None)) == rows
  {
    if rows != [] {
      EmptyQueryListsAll(rows[..|rows| - 1]);
      assert rows[..|rows| - 1] + [rows[|rows| - 1]] == rows;
    }
  }

  /** The response of `getAllMobiles`: one page of matches, their count and the page count. */
  datatype Listing = Listing(rows: seq<Mobile>, total: nat, page: int, limit: int, totalPages: Option<int>)

  function ListMobiles(rows: seq<Mobile>, q: MobileQuery, page: int, limit: int): (r: Listing)
    ensures r.rows == Window(FilterMobiles(rows, q), Offset(page, limit), limit)
    ensures r.total == |FilterMobiles(rows, q)| && r.page == page && r.limit == limit
    ensures forall m :: m in r.rows ==> m in rows && MobileMatches(m, q)
    ensures limit >= 0 ==> |r.rows| <= limit
    ensures r.totalPages == TotalPages(r.total, limit)
  {
    var matches := FilterMobiles(rows, q);
    var window := Window(matches, Offset(page, limit), limit);
    assert forall m :: m in window ==> m in matches by {
      var o := Offset(page, limit);
      if 0 <= o <= |matches| {
        assert window == matches[o..o + |window|];
      }
    }
    Listing(window, |matches|, page, limit, TotalPages(|matches|, limit))
  }

  /** Some row has brand `b`. */
  predicate HasBrand(rows: seq<Mobile>, b: string) {
    exists k :: 0 <= k < |rows| && rows[k].brand == b
  }

  /** `DISTINCT brand`, falsy values dropped. */
  function Brands(rows: seq<Mobile>): (r: seq<string>)
    ensures forall b :: b in r <==> b != "" && HasBrand(rows, b)
    ensures forall i, j :: 0 <= i < j < |r| ==> r[i] != r[j]
  {
    if rows == [] then []
    else
      var init := rows[..|rows| - 1];
      var b := rows[|rows| - 1].brand;
      var prev := Brands(init);
      assert forall c :: HasBrand(rows, c) <==> HasBrand(init, c) || c == b by {
        forall c | HasBrand(rows, c) ensures HasBrand(init, c) || c == b {
          var k :| 0 <= k < |rows| && rows[k].brand == c;
          if k < |init| { assert init[k] == rows[k]; }
        }
        forall c | HasBrand(init, c) ensures HasBrand(rows, c) {
          var k :| 0 <= k < |init| && init[k].brand == c;
          assert rows[k] == init[k];
        }
      }
      if b == "" || b in prev then prev else prev + [b]
  }

  /** Stored brands are never blank, so the `filter(Boolean)` drops nothing from a valid table. */
  lemma BrandsOfValidRows(rows: seq<Mobile>, k: nat)
    requires k < |rows| && Stored(rows[k])
    ensures rows[k].brand in Brands(rows)
  {
    assert rows[k].brand != "" by {
      if rows[k].brand == "" { assert AllWhitespace(rows[k].brand); }
    }
  }

  datatype MobileError =
    | NotFound         // no mobile with that id
    | SoldLocked       // the mobile is sold: no delete, and no update unless by an admin
    | ValidationFailed // a model validator refused the new values
    | DuplicateImei    // the `imei` UNIQUE constraint

  /**
   * The body of `PUT /api/mobiles/:id`: any subset of the columns.  `None` is a
   * field not sent; for a nullable column, `Some(None)` sets it to null.
   */
  datatype MobilePatch = MobilePatch(
    brand: Option<string>,
    model: Option<string>,
    imei: Option<string>,
    purchasePrice: Option<int>,
    sellingPrice: Option<int>,
    purchaseDate: Option<string>,
    status: Option<Status>,
    supplier: Option<Option<string>>,
    color: Option<Option<string>>,
    storage: Option<Option<string>>,
    condition: Option<Option<Condition>>,
    notes: Option<Option<string>>)

  function NoChange(): MobilePatch {
    MobilePatch(None, None, None, None, None, None, None, None, None, None, None, None)
  }

  /** `mobile.set(updateData)`: each supplied field overwrites the stored one. */
  function Applied(m: Mobile, p: MobilePatch): (r: Mobile)
    ensures p == NoChange() ==> r == m
  {
    Mobile(
      p.brand.GetOr(m.brand),
      p.model.GetOr(m.model),
      p.imei.GetOr(m.imei),
      p.purchasePrice.GetOr(m.purchasePrice),
      p.sellingPrice.GetOr(m.sellingPrice),
      p.purchaseDate.GetOr(m.purchaseDate),
      p.status.GetOr(m.status),
      p.supplier.GetOr(m.supplier),
      p.color.GetOr(m.color),
      p.storage.GetOr(m.storage),
      p.condition.GetOr(m.condition),
      p.notes.GetOr(m.notes))
  }

  /** The row `update` tries to write: the patch applied, then the `beforeValidate` hook. */
  function Patched(m: Mobile, p: MobilePatch): Mobile {
    BeforeValidate(Applied(m, p))
  }

  /** Some other mobile already has this IMEI. */
  predicate ImeiTaken(mobiles: map<nat, Mobile>, id: nat, imei: string) {
    exists j :: j in mobiles && j != id && mobiles[j].imei == imei
  }

  /** A supplied value that differs from the stored one: what `instance.changed()` reports. */
  predicate Changes<T(==)>(v: Option<T>, stored: T) {
    v.Some? && v.value != stored
  }

  /**
   * `instance.update` as the ORM runs it: only the attributes the patch changes
   * are validated, each validator on the patched record.
   */
  predicate ValidatesAsWritten(m: Mobile, p: MobilePatch) {
    var w := Patched(m, p);
    && (Changes(p.brand, m.brand) ==> BrandValid(w))
    && (Changes(p.model, m.model) ==> ModelValid(w))
    && (Changes(p.imei, m.imei) ==> ImeiValid(w))
    && (Changes(p.purchasePrice, m.purchasePrice) ==> PurchasePriceValid(w))
    && (Changes(p.sellingPrice, m.sellingPrice) ==> SellingPriceValid(w))
  }

  /** `updateMobile` with the ORM's per-changed-attribute validation. */
  function UpdateMobileAsWritten(mobiles: map<nat, Mobile>, id: int, p: MobilePatch, isAdmin: bool)
    : (r: Result<map<nat, Mobile>, MobileError>)
    ensures r.Ok? ==> id in mobiles && r.value == mobiles[id := Patched(mobiles[id], p)]
  {
    if id < 0 || id !in mobiles then Err(NotFound)
    else if mobiles[id].status == Sold && !isAdmin then Err(SoldLocked)
    else if !ValidatesAsWritten(mobiles[id], p) then Err(ValidationFailed)
    else if ImeiTaken(mobiles, id, Patched(mobiles[id], p).imei) then Err(DuplicateImei)
    else Ok(mobiles[id := Patched(mobiles[id], p)])
  }

  /**
   * Raising only the purchase price above the stored selling price passes the
   * per-attribute validation, since the ordering check hangs on `sellingPrice`,
   * and stores a mobile whose selling price is below its purchase price.
   */
  lemma PurchaseAboveSellingAccepted(mobiles: map<nat, Mobile>, id: nat)
    requires MobilesValid(mobiles) && id in mobiles && mobiles[id].status == InStock
    ensures var p := NoChange().(purchasePrice := Some(mobiles[id].sellingPrice + 1));
      && UpdateMobileAsWritten(mobiles, id, p, false).Ok?
      && !MobileValid(UpdateMobileAsWritten(mobiles, id, p, false).value[id])
  {
    var m := mobiles[id];
    var p := NoChange().(purchasePrice := Some(m.sellingPrice + 1));
    StoredImeiValid(m);
    assert Patched(m, p) == m.(purchasePrice := m.sellingPrice + 1);
    assert !ImeiTaken(mobiles, id, m.imei);
  }

  /** An IMEI the validators accept and the hook has cleaned has the stored shape. */
  lemma ImeiValidStored(m: Mobile)
    requires ImeiValid(m) && NoWhitespace(m.imei)
    ensures StoredImei(m.imei)
  {
    RemoveWhitespaceNoop(m.imei);
    ImeiValidator.ValidateImeiOutcomes(m.imei);
  }

  /**
   * A patch the ORM lets through leaves a row the table can hold: a changed
   * column passed its own check, and an unchanged one still passes it.
   */
  lemma PatchedStored(m: Mobile, p: MobilePatch)
    requires Stored(m) && ValidatesAsWritten(m, p)
    ensures Stored(Patched(m, p))
  {
    var w := Patched(m, p);
    StoredImeiValid(m);
    if Changes(p.imei, m.imei) {
      ImeiValidStored(w);
    } else {
      assert w.imei == m.imei;
    }
  }

  /**
   * The guards of `updateMobile` as written, both ways: an unknown id is
   * `NotFound`; a sold mobile is refused to a non-admin; an accepted update
   * replaces only that row and keeps the table valid.
   */
  lemma UpdateMobileAsWrittenOutcome(mobiles: map<nat, Mobile>, id: int, p: MobilePatch, isAdmin: bool)
    requires MobilesValid(mobiles)
    ensures UpdateMobileAsWritten(mobiles, id, p, isAdmin) == Err(NotFound) <==> id < 0 || id !in mobiles
    ensures UpdateMobileAsWritten(mobiles, id, p, isAdmin) == Err(SoldLocked) <==>
      0 <= id && id in mobiles && mobiles[id].status == Sold && !isAdmin
    ensures UpdateMobileAsWritten(mobiles, id, p, isAdmin).Ok? ==>
      var r := UpdateMobileAsWritten(mobiles, id, p, isAdmin).value;
      && r.Keys == mobiles.Keys
      && r[id] == Patched(mobiles[id], p)
      && (forall j :: j in mobiles && j != id ==> r[j] == mobiles[j])
      && MobilesValid(r)
  {
    if UpdateMobileAsWritten(mobiles, id, p, isAdmin).Ok? {
      var r := UpdateMobileAsWritten(mobiles, id, p, isAdmin).value;
      var w := Patched(mobiles[id], p);
      PatchedStored(mobiles[id], p);
      forall i, j | i in r && j in r && i != j ensures r[i].imei != r[j].imei {
        if i == id {
          assert !(j in mobiles && j != id && mobiles[j].imei == w.imei);
        } else if j == id {
          assert !(i in mobiles && i != id && mobiles[i].imei == w.imei);
        }
      }
    }
  }

  /**
   * `updateMobile` validating the whole patched record, as the model's
   * validators intend: `NotFound`, `SoldLocked` for a sold mobile and a
   * non-admin caller, `ValidationFailed`, `DuplicateImei`, or the new table.
   */
  function UpdateMobileSpec(mobiles: map<nat, Mobile>, id: int, p: MobilePatch, isAdmin: bool)
    : Result<map<nat, Mobile>, MobileError>
  {
    if id < 0 || id !in mobiles then Err(NotFound)
    else if mobiles[id].status == Sold && !isAdmin then Err(SoldLocked)
    else if !MobileValid(Patched(mobiles[id], p)) then Err(ValidationFailed)
    else if ImeiTaken(mobiles, id, Patched(mobiles[id], p).imei) then Err(DuplicateImei)
    else Ok(mobiles[id := Patched(mobiles[id], p)])
  }

  /**
   * The guards of `updateMobile`, both ways: an unknown id is `NotFound`; a sold
   * mobile is refused to a non-admin; an accepted update replaces only that
   * row, with the patched and cleaned values, and keeps the table valid.
   */
  lemma UpdateMobileOutcome(mobiles: map<nat, Mobile>, id: int, p: MobilePatch, isAdmin: bool)
    requires MobilesValid(mobiles)
    ensures UpdateMobileSpec(mobiles, id, p, isAdmin) == Err(NotFound) <==> id < 0 || id !in mobiles
    ensures UpdateMobileSpec(mobiles, id, p, isAdmin) == Err(SoldLocked) <==>
      0 <= id && id in mobiles && mobiles[id].status == Sold && !isAdmin
    ensures UpdateMobileSpec(mobiles, id, p, isAdmin).Ok? ==>
      var r := UpdateMobileSpec(mobiles, id, p, isAdmin).value;
      && r.Keys == mobiles.Keys
      && r[id] == Patched(mobiles[id], p)
      && (forall j :: j in mobiles && j != id ==> r[j] == mobiles[j])
      && MobilesValid(r)
  {
    if UpdateMobileSpec(mobiles, id, p, isAdmin).Ok? {
      var r := UpdateMobileSpec(mobiles, id, p, isAdmin).value;
      var w := Patched(mobiles[id], p);
      HookedIsSaved(Applied(mobiles[id], p));
      forall i, j | i in r && j in r && i != j ensures r[i].imei != r[j].imei {
        if i == id {
          assert !(j in mobiles && j != id && mobiles[j].imei == w.imei);
        } else if j == id {
          assert !(i in mobiles && i != id && mobiles[i].imei == w.imei);
        }
      }
    }
  }

  /**
   * An update that changes nothing, sent by anyone on an unsold mobile: as
   * written it succeeds and leaves the table as it was; the whole-record check
   * refuses it exactly when the stored selling price is below the purchase price.
   */
  lemma EmptyPatchKeepsTable(mobiles: map<nat, Mobile>, id: nat, isAdmin: bool)
    requires MobilesValid(mobiles) && id in mobiles && mobiles[id].status == InStock
    ensures UpdateMobileAsWritten(mobiles, id, NoChange(), isAdmin) == Ok(mobiles)
    ensures UpdateMobileSpec(mobiles, id, NoChange(), isAdmin) ==
      if SellingAbovePurchase(mobiles[id]) then Ok(mobiles) else Err(ValidationFailed)
  {
    var m := mobiles[id];
    StoredImeiValid(m);
    var w := Patched(m, NoChange());
    assert w == m;
    SavedIff(m);
    assert MobileValid(w) <==> SellingAbovePurchase(m);
    assert !ImeiTaken(mobiles, id, w.imei);
    assert mobiles[id := w] == mobiles;
    assert UpdateMobileAsWritten(mobiles, id, NoChange(), isAdmin) == Ok(mobiles[id := w]);
    if SellingAbovePurchase(m) {
      assert UpdateMobileSpec(mobiles, id, NoChange(), isAdmin) == Ok(mobiles[id := w]);
    }
  }

  /**
   * There is no field allow-list: a non-admin may set an unsold mobile's status
   * to `sold` directly, with no sale recorded for it.  The whole-record check
   * adds only the price order.
   */
  lemma StatusPatchUnguarded(mobiles: map<nat, Mobile>, id: nat)
    requires MobilesValid(mobiles) && id in mobiles && mobiles[id].status == InStock
    ensures UpdateMobileAsWritten(mobiles, id, NoChange().(status := Some(Sold)), false) ==
      Ok(mobiles[id := mobiles[id].(status := Sold)])
    ensures UpdateMobileSpec(mobiles, id, NoChange().(status := Some(Sold)), false) ==
      if SellingAbovePurchase(mobiles[id]) then Ok(mobiles[id := mobiles[id].(status := Sold)]) else Err(ValidationFailed)
  {
    var m := mobiles[id];
    var p := NoChange().(status := Some(Sold));
    StoredImeiValid(m);
    var w := m.(status := Sold);
    assert Patched(m, p) == w;
    SavedIff(w);
    assert MobileValid(w) <==> SellingAbovePurchase(m);
    assert !ImeiTaken(mobiles, id, m.imei);
  }

  /** `deleteMobile`: `NotFound`, `SoldLocked` for a sold mobile, or the table without that row. */
  function DeleteMobileSpec(mobiles: map<nat, Mobile>, id: int): (r: Result<map<nat, Mobile>, MobileError>)
    ensures r == Err(NotFound) <==> id < 0 || id !in mobiles
    ensures r == Err(SoldLocked) <==> 0 <= id && id in mobiles && mobiles[id].status == Sold
    ensures r.Ok? ==> id in mobiles && r.value.Keys == mobiles.Keys - {id as nat}
    ensures r.Ok? ==> forall j :: j in r.value ==> r.value[j] == mobiles[j]
  {
    if id < 0 || id !in mobiles then Err(NotFound)
    else if mobiles[id].status == Sold then Err(SoldLocked)
    else Ok(mobiles - {id})
  }

  /** Deleting keeps the table valid and never removes a sold mobile, so sale records keep the mobiles they name. */
  lemma DeleteMobileKeepsSold(mobiles: map<nat, Mobile>, id: int)
    requires MobilesValid(mobiles) && DeleteMobileSpec(mobiles, id).Ok?
    ensures MobilesValid(DeleteMobileSpec(mobiles, id).value)
    ensures forall j :: j in mobiles && mobiles[j].status == Sold ==>
      j in DeleteMobileSpec(mobiles, id).value && DeleteMobileSpec(mobiles, id).value[j] == mobiles[j]
  {
  }

  /** `updateMobile` on the store: only `mobiles` may change, and only as `UpdateMobileSpec` says. */
  method UpdateMobile(db: Store, id: int, p: MobilePatch, isAdmin: bool) returns (r: Result<Mobile, MobileError>)
    requires db.Valid()
    modifies db
    ensures db.Valid()
    ensures var spec := UpdateMobileSpec(old(db.mobiles), id, p, isAdmin);
      && (spec.Err? ==> r == Err(spec.error) && db.State() == old(db.State()))
      && (spec.Ok? ==> r == Ok(spec.value[id]) && db.State() == old(db.State()).(mobiles := spec.value))
  {
    if id < 0 || id !in db.mobiles {
      return Err(NotFound);
    }
    var mobile := db.mobiles[id];
    if mobile.status == Sold && !isAdmin {
      return Err(SoldLocked);
    }
    var w := Patched(mobile, p);
    if !MobileValid(w) {
      assert UpdateMobileSpec(db.mobiles, id, p, isAdmin) == Err(ValidationFailed);
      return Err(ValidationFailed);
    }
    if ImeiTaken(db.mobiles, id, w.imei) {
      assert UpdateMobileSpec(db.mobiles, id, p, isAdmin) == Err(DuplicateImei);
      return Err(DuplicateImei);
    }
    var updated := db.mobiles[id := w];
    assert UpdateMobileSpec(db.mobiles, id, p, isAdmin) == Ok(updated);
    UpdateMobileOutcome(db.mobiles, id, p, isAdmin);
    WithMobilesValid(db.State(), updated);
    db.mobiles := updated;
    r := Ok(w);
  }

  /**
   * `updateMobile` on the store as the ORM runs it, validating only the changed
   * columns: only `mobiles` may change, and only as `UpdateMobileAsWritten` says.
   */
  method UpdateMobileChangedFields(db: Store, id: int, p: MobilePatch, isAdmin: bool) returns (r: Result<Mobile, MobileError>)
    requires db.Valid()
    modifies db
    ensures db.Valid()
    ensures var spec := UpdateMobileAsWritten(old(db.mobiles), id, p, isAdmin);
      && (spec.Err? ==> r == Err(spec.error) && db.State() == old(db.State()))
      && (spec.Ok? ==> r == Ok(spec.value[id]) && db.State() == old(db.State()).(mobiles := spec.value))
  {
    if id < 0 || id !in db.mobiles {
      return Err(NotFound);
    }
    var mobile := db.mobiles[id];
    if mobile.status == Sold && !isAdmin {
      return Err(SoldLocked);
    }
    var w := Patched(mobile, p);
    if !ValidatesAsWritten(mobile, p) {
      assert UpdateMobileAsWritten(db.mobiles, id, p, isAdmin) == Err(ValidationFailed);
      return Err(ValidationFailed);
    }
    if ImeiTaken(db.mobiles, id, w.imei) {
      assert UpdateMobileAsWritten(db.mobiles, id, p, isAdmin) == Err(DuplicateImei);
      return Err(DuplicateImei);
    }
    var updated := db.mobiles[id := w];
    assert UpdateMobileAsWritten(db.mobiles, id, p, isAdmin) == Ok(updated);
    UpdateMobileAsWrittenOutcome(db.mobiles, id, p, isAdmin);
    WithMobilesValid(db.State(), updated);
    db.mobiles := updated;
    r := Ok(w);
  }

  /** `deleteMobile` on the store. */
  method DeleteMobile(db: Store, id: int) returns (r: Result<(), MobileError>)
    requires db.Valid()
    modifies db
    ensures db.Valid()
    ensures var spec := DeleteMobileSpec(old(db.mobiles), id);
      && (spec.Err? ==> r == Err(spec.error) && db.State() == old(db.State()))
      && (spec.Ok? ==> r == Ok(()) && db.State() == old(db.State()).(mobiles := spec.value))
  {
    if id < 0 || id !in db.mobiles {
      return Err(NotFound);
    }
    if db.mobiles[id].status == Sold {
      return Err(SoldLocked);
    }
    DeleteMobileKeepsSold(db.mobiles, id);
    db.mobiles := db.mobiles - {id};
    r := Ok(());
  }
}
