/**
 * What the client forms share: the content of a numeric `<input type="number">`
 * as their tests see it, the price and count rules the Mobile and Accessory
 * forms both apply, and the error map every `handleChange` blanks a field's
 * message in.
 */
module FormInput {
  import opened Wrappers

  /**
   * A numeric input's value.  The browser only hands over the empty string or
   * the text of a valid number, so `Num(n)` is a non-empty, truthy value whose
   * `parseInt`/`parseFloat` is `n` (cents for a price, units for a count).
   */
  datatype NumField = Blank | Num(n: int)

  /** `parseInt(value)` or `parseFloat(value)`; `None` is the NaN the empty string gives. */
  function Parsed(f: NumField): Option<int> {
    match f
    case Blank => None
    case Num(n) => Some(n)
  }

  /** `Number(value)`, which a relational comparison applies to a string: the empty string is 0. */
  function NumberValue(f: NumField): int {
    match f
    case Blank => 0
    case Num(n) => n
  }

  /** `!value || parseFloat(value) <= 0`: a price that is missing or not positive. */
  predicate PriceRefused(f: NumField) {
    f.Blank? || (f.Num? && f.n <= 0)
  }

  /** `parseFloat(selling) < parseFloat(purchase)`, which is false whenever either side is NaN. */
  predicate SellingBelow(selling: NumField, purchase: NumField) {
    selling.Num? && purchase.Num? && selling.n < purchase.n
  }

  /** `!value || parseInt(value) < 0`: a count that is missing or negative. */
  predicate CountRefused(f: NumField) {
    f.Blank? || (f.Num? && f.n < 0)
  }

  /**
   * The error half of every form's `handleChange`: when the edited field shows
   * a message it is blanked, and nothing else changes.  The key stays, so the
   * field still has an entry, with empty text.
   */
  function ClearError(errors: map<string, string>, name: string): (r: map<string, string>)
    ensures r.Keys == errors.Keys
    ensures name in r ==> r[name] == ""
    ensures forall k :: k in errors && k != name ==> r[k] == errors[k]
  {
    if name in errors && errors[name] != "" then errors[name := ""] else errors
  }
}
