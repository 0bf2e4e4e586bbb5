/**
 * The `Mobile` model: one serialized handset in stock, identified by its IMEI.
 * Prices are DECIMAL(10,2) columns, held here as integer cents.
 */
module MobileModel {
  import opened Wrappers
  import opened Text
  import ImeiValidator

  /** The `status` ENUM('in_stock', 'sold'). */
  datatype Status = InStock | Sold

  function StatusName(s: Status): string {
    match s
    case InStock => "in_stock"
    case Sold => "sold"
  }

  /** The `condition` ENUM('new', 'used', 'refurbished'); the column is nullable. */
  datatype Condition = New | Used | Refurbished

  datatype Mobile = Mobile(
    brand: string,
    model: string,
    imei: string,
    purchasePrice: int,
    sellingPrice: int,
    purchaseDate: string,
    status: Status,
    supplier: Option<string>,
    color: Option<string>,
    storage: Option<string>,
    condition: Option<Condition>,
    notes: Option<string>)

  /** A mobile created with only the required fields gets status `in_stock` and condition `new`. */
  function NewMobile(brand: string, model: string, imei: string, purchasePrice: int, sellingPrice: int,
                     purchaseDate: string): (m: Mobile)
    ensures m.status == InStock && m.condition == Some(New)
    ensures m.supplier.None? && m.color.None? && m.storage.None? && m.notes.None?
  {
    Mobile(brand, model, imei, purchasePrice, sellingPrice, purchaseDate, InStock, None, None, None, Some(New), None)
  }

  /** The `isValidIMEI` field validator: the cleaned value must pass `validateIMEI`. */
  predicate ImeiAccepted(imei: string) {
    ImeiValidator.ValidateImei(ImeiValidator.CleanImei(imei)).Valid?
  }

  /** The field validators of the model, each on its own. */
  predicate BrandValid(m: Mobile) { NotBlank(m.brand) }
  predicate ModelValid(m: Mobile) { NotBlank(m.model) }
  predicate ImeiValid(m: Mobile) { NotBlank(m.imei) && ImeiAccepted(m.imei) }
  predicate PurchasePriceValid(m: Mobile) { m.purchasePrice >= 0 }
  /** `isGreaterThanPurchase`, which compares against the record's own purchase price. */
  predicate SellingAbovePurchase(m: Mobile) { m.sellingPrice >= m.purchasePrice }
  /** `min: 0` and `isGreaterThanPurchase`. */
  predicate SellingPriceValid(m: Mobile) { m.sellingPrice >= 0 && SellingAbovePurchase(m) }

  /** Every validator of the model passes on the whole record. */
  predicate MobileValid(m: Mobile) {
    BrandValid(m) && ModelValid(m) && ImeiValid(m) && PurchasePriceValid(m) && SellingPriceValid(m)
  }

  /** The `beforeValidate` hook: a non-empty IMEI is replaced by its cleaned form. */
  function BeforeValidate(m: Mobile): (r: Mobile)
    ensures r == m.(imei := r.imei)
    ensures NoWhitespace(r.imei)
    ensures r.imei == RemoveWhitespace(m.imei)
  {
    if m.imei != "" then m.(imei := ImeiValidator.CleanImei(m.imei)) else m
  }

  /** Cleaning an IMEI never changes whether its field validators pass. */
  lemma CleanKeepsImeiVerdict(imei: string)
    ensures var c := ImeiValidator.CleanImei(imei);
      NotBlank(c) && ImeiAccepted(c) <==> NotBlank(imei) && ImeiAccepted(imei)
  {
    var c := ImeiValidator.CleanImei(imei);
    ImeiValidator.CleanImeiIdempotent(imei);
    RemoveWhitespaceEmpty(imei);
    assert NotBlank(c) <==> c != "";
  }

  /**
   * The hook is idempotent, and it never changes whether the IMEI validators pass;
   * since it touches no other field, it never changes whether the record validates.
   */
  lemma BeforeValidateKeepsVerdict(m: Mobile)
    ensures BeforeValidate(BeforeValidate(m)) == BeforeValidate(m)
    ensures ImeiValid(BeforeValidate(m)) <==> ImeiValid(m)
  {
    ImeiValidator.CleanImeiIdempotent(m.imei);
    if m.imei != "" {
      CleanKeepsImeiVerdict(m.imei);
    }
  }

  /**
   * An IMEI in the form the table holds it: 14 digits, or 15 digits whose last
   * is the Luhn check digit.
   */
  predicate StoredImei(s: string) {
    IsDigitString(s) && (|s| == 14 || (|s| == 15 && ImeiValidator.LuhnHolds(s)))
  }

  /** A row as the model writes it: the hook has run and every validator passed (see `SavedIff`). */
  predicate Saved(m: Mobile) {
    BrandValid(m) && ModelValid(m) && StoredImei(m.imei) && PurchasePriceValid(m) && SellingPriceValid(m)
  }

  /**
   * A row the table can hold.  Sequelize's `update` validates only the columns
   * it changes, so a row keeps every check that looks at one column alone, but
   * `isGreaterThanPurchase` can be broken by a later change of `purchasePrice`.
   */
  predicate Stored(m: Mobile) {
    BrandValid(m) && ModelValid(m) && StoredImei(m.imei) && PurchasePriceValid(m) && m.sellingPrice >= 0
  }

  /** A digit string has no whitespace. */
  lemma DigitsNoWhitespace(s: string)
    requires AllDigits(s)
    ensures NoWhitespace(s)
  {
  }

  /** `Saved` is exactly "every validator passes and the IMEI is whitespace-free", the state the `beforeValidate` hook leaves. */
  lemma SavedIff(m: Mobile)
    ensures Saved(m) <==> MobileValid(m) && NoWhitespace(m.imei)
  {
    var imei := m.imei;
    if NoWhitespace(imei) {
      RemoveWhitespaceNoop(imei);
      assert ImeiValidator.CleanImei(imei) == imei;
      ImeiValidator.ValidateImeiOutcomes(imei);
      if imei != "" {
        assert !IsWhitespace(imei[0]);
        assert NotBlank(imei);
      }
    }
    if StoredImei(imei) {
      DigitsNoWhitespace(imei);
    }
  }

  /** A stored IMEI passes `validateIMEI` as it stands, and the hook leaves it as it is. */
  lemma StoredImeiValid(m: Mobile)
    requires Stored(m)
    ensures ImeiValidator.ValidateImei(m.imei).Valid?
    ensures NoWhitespace(m.imei) && ImeiValidator.CleanImei(m.imei) == m.imei
  {
    DigitsNoWhitespace(m.imei);
    RemoveWhitespaceNoop(m.imei);
    ImeiValidator.ValidateImeiOutcomes(m.imei);
  }

  /** What the hook and the validators let through is a row of the table. */
  lemma HookedIsSaved(m: Mobile)
    requires MobileValid(BeforeValidate(m))
    ensures Saved(BeforeValidate(m))
  {
    SavedIff(BeforeValidate(m));
  }

  /** Changing a stored mobile's status keeps it storable. */
  lemma SavedWithStatus(m: Mobile, s: Status)
    requires Saved(m)
    ensures Saved(m.(status := s)) && Stored(m.(status := s))
  {
  }

  /** The `imei` column's UNIQUE constraint over a table of mobiles keyed by id. */
  predicate UniqueImeis(mobiles: map<nat, Mobile>) {
    forall i, j :: i in mobiles && j in mobiles && i != j ==> mobiles[i].imei != mobiles[j].imei
  }

  /** `calculateProfit`: selling price less purchase price, never negative on a valid record. */
  function CalculateProfit(m: Mobile): (p: int)
    ensures p + m.purchasePrice == m.sellingPrice
    ensures MobileValid(m) ==> 0 <= p <= m.sellingPrice
  {
    m.sellingPrice - m.purchasePrice
  }

  /** The `itemName` snapshot a sale line keeps for a mobile: brand, model and IMEI. */
  function DisplayName(m: Mobile): string {
    m.brand + " " + m.model + " (IMEI: " + m.imei + ")"
  }

  /** A loaded `Mobile` instance whose methods assign its attributes and save it. */
  class MobileRecord {
    var row: Mobile

    ghost predicate Valid()
      reads this
    {
      Stored(row)
    }

    constructor (m: Mobile)
      requires Stored(m)
      ensures Valid() && row == m
    {
      row := m;
    }

    /** `markAsSold`: the status becomes `sold`; saving validates only that attribute, which cannot fail. */
    method MarkAsSold()
      requires Valid()
      modifies this
      ensures Valid()
      ensures row == old(row).(status := Sold)
    {
      row := row.(status := Sold);
    }
  }
}
