/**
 * The accessory form of the client: `validateForm`, the mapping that fills the
 * form from a stored accessory when editing, and the numeric conversion of
 * `handleSubmit`.
 */
module AccessoryForm {
  import opened Wrappers
  import opened Text
  import opened AccessoryModel
  import opened FormInput

  /** The form's state; the text fields are plain strings, the numeric ones `NumField`s. */
  datatype AccessoryFormData = AccessoryFormData(
    name: string,
    category: string,
    brand: string,
    quantity: NumField,
    purchasePrice: NumField,
    sellingPrice: NumField,
    reorderLevel: NumField,
    supplier: string,
    description: string)

  const NameRequired := "Name is required"
  const CategoryRequired := "Category is required"
  const QuantityRequired := "Valid quantity is required"
  const PurchasePriceRequired := "Valid purchase price is required"
  const SellingPriceRequired := "Valid selling price is required"
  const SellingBelowPurchase := "Selling price must be greater than or equal to purchase price"
  const ReorderLevelRequired := "Valid reorder level is required"

  /**
   * `validateForm`: a trimmed-empty name, an empty category, a missing or
   * negative quantity or reorder level, a missing or non-positive price, and a
   * selling price below the purchase price (which replaces the selling-price
   * message) each give one message.
   */
  function ValidateForm(f: AccessoryFormData): (r: map<string, string>)
    ensures r.Keys <= {"name", "category", "quantity", "purchasePrice", "sellingPrice", "reorderLevel"}
    ensures ("name" in r <==> AllWhitespace(f.name)) && ("name" in r ==> r["name"] == NameRequired)
    ensures ("category" in r <==> f.category == "") && ("category" in r ==> r["category"] == CategoryRequired)
    ensures ("quantity" in r <==> CountRefused(f.quantity)) && ("quantity" in r ==> r["quantity"] == QuantityRequired)
    ensures ("purchasePrice" in r <==> PriceRefused(f.purchasePrice)) &&
      ("purchasePrice" in r ==> r["purchasePrice"] == PurchasePriceRequired)
    ensures ("sellingPrice" in r <==> PriceRefused(f.sellingPrice) || SellingBelow(f.sellingPrice, f.purchasePrice)) &&
      (SellingBelow(f.sellingPrice, f.purchasePrice) ==> r["sellingPrice"] == SellingBelowPurchase) &&
      (PriceRefused(f.sellingPrice) && !SellingBelow(f.sellingPrice, f.purchasePrice) ==>
         r["sellingPrice"] == SellingPriceRequired)
    ensures ("reorderLevel" in r <==> CountRefused(f.reorderLevel)) &&
      ("reorderLevel" in r ==> r["reorderLevel"] == ReorderLevelRequired)
  {
    var e3 := LeadingErrors(f);
    var e4 := if PriceRefused(f.purchasePrice) then e3["purchasePrice" := PurchasePriceRequired] else e3;
    var e5 := if PriceRefused(f.sellingPrice) then e4["sellingPrice" := SellingPriceRequired] else e4;
    var e6 := if SellingBelow(f.sellingPrice, f.purchasePrice) then e5["sellingPrice" := SellingBelowPurchase] else e5;
    if CountRefused(f.reorderLevel) then e6["reorderLevel" := ReorderLevelRequired] else e6
  }

  /** The first three checks of `validateForm`, on the name, the category and the quantity. */
  function LeadingErrors(f: AccessoryFormData): (r: map<string, string>)
    ensures r.Keys <= {"name", "category", "quantity"}
    ensures ("name" in r <==> AllWhitespace(f.name)) && ("name" in r ==> r["name"] == NameRequired)
    ensures ("category" in r <==> f.category == "") && ("category" in r ==> r["category"] == CategoryRequired)
    ensures ("quantity" in r <==> CountRefused(f.quantity)) && ("quantity" in r ==> r["quantity"] == QuantityRequired)
  {
    TrimEmpty(f.name);
    var e0: map<string, string> := map[];
    var e1 := if Trim(f.name) == "" then e0["name" := NameRequired] else e0;
    var e2 := if f.category == "" then e1["category" := CategoryRequired] else e1;
    if CountRefused(f.quantity) then e2["quantity" := QuantityRequired] else e2
  }

  /** The body `handleSubmit` sends: counts through `parseInt`, prices through `parseFloat`; `None` is NaN. */
  datatype Submission = Submission(
    name: string,
    category: string,
    brand: string,
    quantity: Option<int>,
    purchasePrice: Option<int>,
    sellingPrice: Option<int>,
    reorderLevel: Option<int>,
    supplier: string,
    description: string)

  /** The conversion in `handleSubmit`: the text fields as they are, the numeric ones parsed. */
  function ToSubmission(f: AccessoryFormData): (s: Submission)
    ensures s.name == f.name && s.category == f.category && s.brand == f.brand
    ensures s.supplier == f.supplier && s.description == f.description
    ensures s.quantity.Some? <==> f.quantity.Num?
    ensures s.reorderLevel.Some? <==> f.reorderLevel.Num?
    ensures f.purchasePrice.Num? && f.sellingPrice.Num? ==>
      s.purchasePrice == Some(f.purchasePrice.n) && s.sellingPrice == Some(f.sellingPrice.n)
  {
    Submission(f.name, f.category, f.brand, Parsed(f.quantity), Parsed(f.purchasePrice), Parsed(f.sellingPrice),
               Parsed(f.reorderLevel), f.supplier, f.description)
  }

  /**
   * A form that passes validation submits numbers in every numeric field, and
   * an accessory made of them passes every server-side field validator it has
   * a counterpart for: the name and the numbers.
   */
  lemma FormAcceptedSubmitsValid(f: AccessoryFormData)
    requires ValidateForm(f) == map[]
    ensures var s := ToSubmission(f);
      && s.quantity.Some? && s.purchasePrice.Some? && s.sellingPrice.Some? && s.reorderLevel.Some?
      && s.category != ""
      && (NotBlank(s.category) ==>
            AccessoryValid(Accessory(s.name, s.category, Some(s.brand), s.quantity.value, s.purchasePrice.value,
                                     s.sellingPrice.value, s.reorderLevel, Some(s.supplier), Some(s.description))))
  {
    assert "name" !in ValidateForm(f) && "quantity" !in ValidateForm(f) && "reorderLevel" !in ValidateForm(f);
    assert "purchasePrice" !in ValidateForm(f) && "sellingPrice" !in ValidateForm(f);
  }

  /** `value || fallback` on a number: 0 is falsy, so a zero becomes the fallback. */
  function OrBlank(n: int): NumField {
    if n == 0 then Blank else Num(n)
  }

  /**
   * The edit prefill as written, `field: accessory.field || fallback`: a
   * quantity or price of 0 becomes the empty string, and a reorder level of 0
   * or null becomes '5'.
   */
  function PrefillAsWritten(a: Accessory): (f: AccessoryFormData)
    ensures f.quantity == (if a.quantity == 0 then Blank else Num(a.quantity))
    ensures f.reorderLevel == Num(if a.reorderLevel.None? || a.reorderLevel.value == 0 then 5 else a.reorderLevel.value)
  {
    AccessoryFormData(
      a.name,
      if a.category == "" then "Charger" else a.category,
      a.brand.GetOr(""),
      OrBlank(a.quantity),
      OrBlank(a.purchasePrice),
      OrBlank(a.sellingPrice),
      Num(if a.reorderLevel.None? || a.reorderLevel.value == 0 then 5 else a.reorderLevel.value),
      a.supplier.GetOr(""),
      a.description.GetOr(""))
  }

  /** Opening an out-of-stock accessory for editing shows a quantity error on submit, although 0 is a valid stock. */
  lemma ZeroStockPrefillRefused(a: Accessory)
    requires AccessoryValid(a) && a.quantity == 0
    ensures "quantity" in ValidateForm(PrefillAsWritten(a))
  {
  }

  /** Saving an accessory whose reorder level is 0 without touching the field sends 5. */
  lemma ZeroReorderSubmittedAsFive(a: Accessory)
    requires a.reorderLevel == Some(0)
    ensures ToSubmission(PrefillAsWritten(a)).reorderLevel == Some(5)
  {
  }

  /**
   * The prefill as intended, each field `accessory.field ?? fallback`: only a
   * missing value takes the fallback, and a zero is shown as 0.
   */
  function Prefill(a: Accessory): (f: AccessoryFormData)
    ensures f.quantity == Num(a.quantity)
    ensures f.purchasePrice == Num(a.purchasePrice) && f.sellingPrice == Num(a.sellingPrice)
    ensures f.reorderLevel == Num(a.reorderLevel.GetOr(5))
    ensures f.name == a.name && f.category == a.category
  {
    AccessoryFormData(
      a.name,
      a.category,
      a.brand.GetOr(""),
      Num(a.quantity),
      Num(a.purchasePrice),
      Num(a.sellingPrice),
      Num(a.reorderLevel.GetOr(5)),
      a.supplier.GetOr(""),
      a.description.GetOr(""))
  }

  /** Saving an untouched prefilled form sends back the stored numbers; only a missing reorder level becomes 5. */
  lemma PrefillRoundTrip(a: Accessory)
    ensures var s := ToSubmission(Prefill(a));
      && s.quantity == Some(a.quantity)
      && s.purchasePrice == Some(a.purchasePrice) && s.sellingPrice == Some(a.sellingPrice)
      && s.reorderLevel == Some(a.reorderLevel.GetOr(5))
      && s.name == a.name && s.category == a.category
  {
  }

  /**
   * With the intended prefill, a valid accessory with a positive purchase price
   * opens as a form with no errors; in particular zero stock and a zero
   * reorder level are accepted.
   */
  lemma ValidAccessoryPrefillAccepted(a: Accessory)
    requires AccessoryValid(a) && a.purchasePrice > 0
    ensures ValidateForm(Prefill(a)) == map[]
  {
    var r := ValidateForm(Prefill(a));
    assert r.Keys == {};
  }
}
