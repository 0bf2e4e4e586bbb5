/**
 * The mobile form of the client: its own copy of `validateIMEI` and
 * `luhnCheck`, `validateForm`, and the live IMEI check of `handleChange`.
 */
module MobileForm {
  import opened Wrappers
  import opened Text
  import opened ImeiValidator
  import opened MobileModel
  import opened FormInput

  /**
   * The client's `validateIMEI`: the same tests as the server's, except that
   * the 14-digit case is folded into the final checksum test
   * (`length === 15 && !luhnCheck`).
   */
  function FormValidateImei(imei: string): (r: Validation)
    ensures r == ValidateImei(imei)
  {
    if imei == "" then Invalid(Required)
    else
      var s := RemoveWhitespace(Trim(imei));
      if !IsDigitString(s) then Invalid(NotDigits)
      else if |s| != 15 && |s| != 14 then Invalid(WrongLength(|s|))
      else if |s| == 15 && !LuhnHolds(s) then Invalid(BadChecksum)
      else Valid
  }

  /** The client's `luhnCheck`, the same loop as the server's: it decides the same Luhn condition. */
  method FormLuhnCheck(num: string) returns (ok: bool)
    requires AllDigits(num)
    ensures ok == LuhnHolds(num)
  {
    var sum := 0;
    var isEven := false;
    var i := |num| - 1;
    assert num[..i + 1] == num;
    while i >= 0
      invariant -1 <= i < |num|
      invariant sum + LuhnSum(num[..i + 1], isEven) == LuhnSum(num, false)
    {
      assert num[..i + 1][..i] == num[..i];
      var digit := DigitValue(num[i]);
      if isEven {
        digit := digit * 2;
        if digit > 9 {
          digit := digit - 9;
        }
      }
      sum := sum + digit;
      isEven := !isEven;
      i := i - 1;
    }
    assert num[..0] == [];
    ok := sum % 10 == 0;
  }

  /** The fields `validateForm` reads. */
  datatype MobileFormData = MobileFormData(
    brand: string,
    model: string,
    imei: string,
    purchasePrice: NumField,
    sellingPrice: NumField)

  const BrandRequired := "Brand is required"
  const ModelRequired := "Model is required"
  const PurchasePriceRequired := "Valid purchase price is required"
  const SellingPriceRequired := "Valid selling price is required"
  const SellingBelowPurchase := "Selling price must be greater than purchase price"

  /**
   * `validateForm`: one message per failing field.  Brand and model must have
   * a non-whitespace character; the IMEI must pass `validateIMEI`; each price
   * must be present and positive; and a selling price below the purchase price
   * replaces the selling-price message with the ordering one.
   */
  function ValidateForm(f: MobileFormData): (r: map<string, string>)
    ensures r.Keys <= {"brand", "model", "imei", "purchasePrice", "sellingPrice"}
    ensures "brand" in r <==> AllWhitespace(f.brand)
    ensures "model" in r <==> AllWhitespace(f.model)
    ensures "brand" in r ==> r["brand"] == BrandRequired
    ensures "model" in r ==> r["model"] == ModelRequired
    ensures "imei" in r <==> ValidateImei(f.imei).Invalid?
    ensures "imei" in r ==> r["imei"] == Message(ValidateImei(f.imei).error)
    ensures "purchasePrice" in r <==> PriceRefused(f.purchasePrice)
    ensures "purchasePrice" in r ==> r["purchasePrice"] == PurchasePriceRequired
    ensures "sellingPrice" in r <==> PriceRefused(f.sellingPrice) || SellingBelow(f.sellingPrice, f.purchasePrice)
    ensures SellingBelow(f.sellingPrice, f.purchasePrice) ==> r["sellingPrice"] == SellingBelowPurchase
    ensures PriceRefused(f.sellingPrice) && !SellingBelow(f.sellingPrice, f.purchasePrice) ==>
      r["sellingPrice"] == SellingPriceRequired
  {
    TrimEmpty(f.brand);
    TrimEmpty(f.model);
    var e0: map<string, string> := map[];
    var e1 := if Trim(f.brand) == "" then e0["brand" := BrandRequired] else e0;
    var e2 := if Trim(f.model) == "" then e1["model" := ModelRequired] else e1;
    var v := FormValidateImei(f.imei);
    var e3 := if v.Invalid? then e2["imei" := Message(v.error)] else e2;
    var e4 := if PriceRefused(f.purchasePrice) then e3["purchasePrice" := PurchasePriceRequired] else e3;
    var e5 := if PriceRefused(f.sellingPrice) then e4["sellingPrice" := SellingPriceRequired] else e4;
    if SellingBelow(f.sellingPrice, f.purchasePrice) then e5["sellingPrice" := SellingBelowPurchase] else e5
  }

  /**
   * Whatever the form lets through, with numbers in both price fields, is a
   * record every server-side field validator accepts: the form's checks are
   * at least as strict as the model's.
   */
  lemma FormAcceptedIsMobileValid(f: MobileFormData, m: Mobile)
    requires ValidateForm(f) == map[]
    requires m.brand == f.brand && m.model == f.model && m.imei == f.imei
    requires f.purchasePrice == Num(m.purchasePrice) && f.sellingPrice == Num(m.sellingPrice)
    ensures MobileValid(m)
  {
    assert "imei" !in ValidateForm(f);
    ValidateImeiOutcomes(m.imei);
    ValidateAfterClean(m.imei);
    if AllWhitespace(m.imei) {
      RemoveWhitespaceEmpty(m.imei);
    }
  }

  /**
   * The form is stricter than the model: a zero purchase price, which the
   * model's `min: 0` accepts, is refused.
   */
  lemma ZeroPriceRefused(f: MobileFormData)
    requires f.purchasePrice == Num(0)
    ensures "purchasePrice" in ValidateForm(f)
    ensures PurchasePriceValid(NewMobile(f.brand, f.model, f.imei, 0, 0, ""))
  {
  }

  /**
   * The error half of `handleChange`: the edited field's message is blanked,
   * then a non-empty IMEI that fails `validateIMEI` gets that failure's message.
   */
  function OnChange(errors: map<string, string>, name: string, value: string): (r: map<string, string>)
    ensures name == "imei" && value != "" && ValidateImei(value).Invalid? ==>
      r == errors["imei" := Message(ValidateImei(value).error)]
    ensures !(name == "imei" && value != "" && ValidateImei(value).Invalid?) ==> r == ClearError(errors, name)
    ensures r.Keys >= errors.Keys
  {
    var cleared := ClearError(errors, name);
    if name == "imei" && value != "" then
      var v := FormValidateImei(value);
      if v.Invalid? then cleared["imei" := Message(v.error)] else cleared
    else cleared
  }
}
