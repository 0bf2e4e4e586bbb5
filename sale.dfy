/** The `Sale` model: one sale header; money in integer cents. */
module SaleModel {
  import opened Wrappers

  /**
   * The values the `paymentMethod` ENUM('cash', 'card', 'bank_transfer', 'other')
   * declares.  Sequelize checks a value against them only when the connection
   * turns on `typeValidation`, which this one does not, and SQLite keeps the
   * column as TEXT, so a write stores whatever text it is given.
   */
  datatype PaymentMethod = Cash | Card | BankTransfer | Other

  function PaymentMethodName(p: PaymentMethod): string {
    match p
    case Cash => "cash"
    case Card => "card"
    case BankTransfer => "bank_transfer"
    case Other => "other"
  }

  /** Which declared method a text names, if any. */
  function ParsePaymentMethod(s: string): (r: Option<PaymentMethod>)
    ensures r.Some? ==> PaymentMethodName(r.value) == s
    ensures (exists p :: PaymentMethodName(p) == s) ==> r.Some?
  {
    if s == "cash" then Some(Cash)
    else if s == "card" then Some(Card)
    else if s == "bank_transfer" then Some(BankTransfer)
    else if s == "other" then Some(Other)
    else None
  }

  /** Each name parses back to its method. */
  lemma PaymentMethodRoundTrip(p: PaymentMethod)
    ensures ParsePaymentMethod(PaymentMethodName(p)) == Some(p)
  {
  }

  /**
   * A sale header.  `customerId` is absent for a walk-in sale; `createdBy` is the
   * id of the user who recorded it; `saleDate` is a date-only value.
   */
  datatype Sale = Sale(
    saleDate: string,
    customerId: Option<int>,
    totalAmount: int,
    profit: int,
    paymentMethod: string,   // the text written; see `PaymentMethod`
    createdBy: int,
    notes: Option<string>)

  /** `totalAmount` has `min: 0`; `profit` has no bound, a sale may lose money. */
  predicate SaleValid(s: Sale) {
    s.totalAmount >= 0
  }
}
