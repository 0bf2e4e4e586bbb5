/**
 * The `Accessory` model: a quantity-tracked stock item (chargers, covers, cables).
 * Prices are DECIMAL(10,2) columns, held here as integer cents.
 */
module AccessoryModel {
  import opened Wrappers
  import opened Text

  datatype Accessory = Accessory(
    name: string,
    category: string,
    brand: Option<string>,
    quantity: int,
    purchasePrice: int,
    sellingPrice: int,
    reorderLevel: Option<int>,   // the column has a default but is nullable
    supplier: Option<string>,
    description: Option<string>)

  /**
   * The checks that look at one column alone: non-blank name and category,
   * `min: 0` on the numbers.  `update` validates only the columns it changes,
   * so every row of the table keeps these, but not the order of its prices.
   */
  predicate AccessoryStored(a: Accessory) {
    && NotBlank(a.name)
    && NotBlank(a.category)
    && a.quantity >= 0
    && a.purchasePrice >= 0
    && a.sellingPrice >= 0
    && (a.reorderLevel.Some? ==> a.reorderLevel.value >= 0)
  }

  /** Every field validator, the selling price not below the purchase price included. */
  predicate AccessoryValid(a: Accessory) {
    AccessoryStored(a) && a.sellingPrice >= a.purchasePrice
  }

  /** An accessory created with only the required fields: quantity 0 and reorder level 5. */
  function NewAccessory(name: string, category: string, purchasePrice: int, sellingPrice: int): (a: Accessory)
    ensures a.quantity == 0 && a.reorderLevel == Some(5)
    ensures a.brand.None? && a.supplier.None? && a.description.None?
    ensures AccessoryValid(a) <==>
      NotBlank(name) && NotBlank(category) && 0 <= purchasePrice <= sellingPrice
  {
    Accessory(name, category, None, 0, purchasePrice, sellingPrice, Some(5), None, None)
  }

  /**
   * `isLowStock`: `quantity <= reorderLevel`.  JavaScript compares a number with
   * `null` as with 0, so a missing reorder level means "out of stock".
   */
  predicate IsLowStock(a: Accessory) {
    a.quantity <= a.reorderLevel.GetOr(0)
  }

  /** A freshly created accessory is always reported as low on stock. */
  lemma NewAccessoryIsLowStock(name: string, category: string, purchasePrice: int, sellingPrice: int)
    ensures IsLowStock(NewAccessory(name, category, purchasePrice, sellingPrice))
  {
  }

  /** `calculateUnitProfit`: selling less purchase price, never negative on a valid accessory. */
  function UnitProfit(a: Accessory): (p: int)
    ensures p + a.purchasePrice == a.sellingPrice
    ensures AccessoryValid(a) ==> 0 <= p <= a.sellingPrice
  {
    a.sellingPrice - a.purchasePrice
  }

  /** `calculateStockValue`: the purchase cost of the units on hand. */
  function StockValue(a: Accessory): (v: int)
    ensures AccessoryStored(a) ==> v >= 0
    ensures a.quantity == 0 ==> v == 0
  {
    a.purchasePrice * a.quantity
  }

  datatype StockError = InsufficientStock | ValidationFailed

  /** `decreaseStock(q)`: refused when fewer than `q` units are on hand, otherwise exactly `q` are taken. */
  function Decreased(a: Accessory, q: int): (r: Result<Accessory, StockError>)
    ensures r.Err? <==> a.quantity < q
    ensures r.Err? ==> r.error == InsufficientStock
    ensures r.Ok? ==> r.value.quantity + q == a.quantity && r.value == a.(quantity := r.value.quantity)
  {
    if a.quantity < q then Err(InsufficientStock) else Ok(a.(quantity := a.quantity - q))
  }

  /**
   * `increaseStock(q)`: adds `q` unconditionally; only the save's `min: 0` check on
   * the quantity can refuse it, which happens when `q` is negative enough.
   */
  function Increased(a: Accessory, q: int): (r: Result<Accessory, StockError>)
    ensures r.Err? <==> a.quantity + q < 0
    ensures r.Ok? ==> r.value.quantity == a.quantity + q && r.value == a.(quantity := r.value.quantity)
  {
    if a.quantity + q < 0 then Err(ValidationFailed) else Ok(a.(quantity := a.quantity + q))
  }

  /** A successful decrease keeps the accessory storable (and valid, if it was) and lowers its stock value by `q` units' cost. */
  lemma DecreasedKeepsValid(a: Accessory, q: int)
    requires AccessoryStored(a) && Decreased(a, q).Ok?
    ensures AccessoryStored(Decreased(a, q).value)
    ensures AccessoryValid(a) ==> AccessoryValid(Decreased(a, q).value)
    ensures StockValue(Decreased(a, q).value) == StockValue(a) - a.purchasePrice * q
  {
    var b := Decreased(a, q).value;
    assert a.purchasePrice * b.quantity == a.purchasePrice * a.quantity - a.purchasePrice * q by {
      assert b.quantity == a.quantity - q;
    }
  }

  /** Increasing by `q` after a successful decrease by `q` restores the accessory exactly. */
  lemma IncreaseUndoesDecrease(a: Accessory, q: int)
    requires AccessoryStored(a) && Decreased(a, q).Ok?
    ensures Increased(Decreased(a, q).value, q) == Ok(a)
  {
  }

  /** Selling from stock never takes an accessory out of the low-stock state. */
  lemma DecreaseKeepsLowStock(a: Accessory, q: int)
    requires q >= 0 && Decreased(a, q).Ok? && IsLowStock(a)
    ensures IsLowStock(Decreased(a, q).value)
  {
  }

  /** A loaded `Accessory` instance whose stock methods assign `quantity` and save it. */
  class AccessoryRecord {
    var row: Accessory

    ghost predicate Valid()
      reads this
    {
      AccessoryStored(row)
    }

    constructor (a: Accessory)
      requires AccessoryStored(a)
      ensures Valid() && row == a
    {
      row := a;
    }

    /** `decreaseStock`: throws before touching the record when stock is short. */
    method DecreaseStock(q: int) returns (r: Result<(), StockError>)
      requires Valid()
      modifies this
      ensures Valid()
      ensures Decreased(old(row), q).Ok? ==> r.Ok? && row == Decreased(old(row), q).value
      ensures Decreased(old(row), q).Err? ==> r == Err(InsufficientStock) && row == old(row)
    {
      if row.quantity < q {
        return Err(InsufficientStock);
      }
      row := row.(quantity := row.quantity - q);
      r := Ok(());
    }

    /** `increaseStock`: the saved row changes only when the new quantity passes `min: 0`. */
    method IncreaseStock(q: int) returns (r: Result<(), StockError>)
      requires Valid()
      modifies this
      ensures Valid()
      ensures Increased(old(row), q).Ok? ==> r.Ok? && row == Increased(old(row), q).value
      ensures Increased(old(row), q).Err? ==> r == Err(ValidationFailed) && row == old(row)
    {
      var candidate := row.(quantity := row.quantity + q);
      if candidate.quantity < 0 {
        return Err(ValidationFailed);
      }
      row := candidate;
      r := Ok(());
    }
  }
}
