/** The `SaleItem` model: one line of a sale, with a snapshot of the item's name and price. */
module SaleItemModel {

  /** The `itemType` ENUM('mobile', 'accessory'), the same tags the sale controller dispatches on. */
  datatype ItemType = MobileItem | AccessoryItem

  function ItemTypeName(t: ItemType): string {
    match t
    case MobileItem => "mobile"
    case AccessoryItem => "accessory"
  }

  /** The line fields the controller computes before the sale id is known. */
  datatype Line = Line(
    itemType: ItemType,
    itemId: nat,
    itemName: string,
    quantity: int,
    unitPrice: int,
    totalPrice: int,
    profit: int)

  /** A stored line: the computed fields plus the id of the sale it belongs to. */
  datatype SaleItem = SaleItem(saleId: nat, line: Line)

  /** `quantity` has `min: 1`; `unitPrice` and `totalPrice` have `min: 0`; `profit` is unbounded. */
  predicate LineValid(l: Line) {
    l.quantity >= 1 && l.unitPrice >= 0 && l.totalPrice >= 0
  }

  predicate AllLinesValid(lines: seq<Line>) {
    forall k :: 0 <= k < |lines| ==> LineValid(lines[k])
  }

  /** The sum of the lines' `totalPrice`. */
  function Total(lines: seq<Line>): int {
    if lines == [] then 0 else Total(lines[..|lines| - 1]) + lines[|lines| - 1].totalPrice
  }

  /** The sum of the lines' `profit`. */
  function Profit(lines: seq<Line>): int {
    if lines == [] then 0 else Profit(lines[..|lines| - 1]) + lines[|lines| - 1].profit
  }

  /** Both sums distribute over concatenation. */
  lemma {:induction false} SumsAppend(a: seq<Line>, b: seq<Line>)
    ensures Total(a + b) == Total(a) + Total(b)
    ensures Profit(a + b) == Profit(a) + Profit(b)
    decreases |b|
  {
    if b == [] {
      assert a + b == a;
    } else {
      assert (a + b)[..|a + b| - 1] == a + b[..|b| - 1];
      SumsAppend(a, b[..|b| - 1]);
    }
  }

  /** Lines that pass validation have a non-negative total, so a sale made of them passes `min: 0`. */
  lemma {:induction false} ValidLinesTotalNonNegative(lines: seq<Line>)
    requires AllLinesValid(lines)
    ensures Total(lines) >= 0
  {
    if lines != [] {
      var init := lines[..|lines| - 1];
      assert AllLinesValid(init) by {
        forall k | 0 <= k < |init| ensures LineValid(init[k]) { assert init[k] == lines[k]; }
      }
      ValidLinesTotalNonNegative(init);
    }
  }
}
