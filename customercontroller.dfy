/**
 * The customer endpoints' logic: the search filter of the list with its
 * pagination, and `deleteCustomer`, which refuses to remove a customer any
 * sale refers to.
 */
module CustomerController {
  import opened Wrappers
  import opened Text
  import opened SaleModel
  import opened Database
  import opened Pagination

  /** `LIKE '%search%'` on name, phone or email when `search` is truthy; a null email matches nothing. */
  predicate CustomerMatches(c: Customer, search: Option<string>) {
    HasText(search) ==>
      Like(c.name, search.value) || Like(c.phone, search.value) ||
      (c.email.Some? && Like(c.email.value, search.value))
  }

  /** The customers the search selects, in the order the table is read. */
  function FilterCustomers(rows: seq<Customer>, search: Option<string>): (r: seq<Customer>)
    ensures |r| <= |rows|
    ensures forall k :: 0 <= k < |r| ==> CustomerMatches(r[k], search)
    ensures forall c {:trigger c in r} :: c in r <==> c in rows && CustomerMatches(c, search)
  {
    if rows == [] then []
    else
      var init := FilterCustomers(rows[..|rows| - 1], search);
      assert rows == rows[..|rows| - 1] + [rows[|rows| - 1]];
      if CustomerMatches(rows[|rows| - 1], search) then init + [rows[|rows| - 1]] else init
  }

  /**
   * The search works row by row in table order: searching two runs of rows
   * one after the other is searching each (and `FilterCustomersSingle` says
   * what it does to one row).
   */
  lemma {:induction false} FilterCustomersAppend(a: seq<Customer>, b: seq<Customer>, search: Option<string>)
    ensures FilterCustomers(a + b, search) == FilterCustomers(a, search) + FilterCustomers(b, search)
    decreases |b|
  {
    if b == [] {
      assert a + b == a;
    } else {
      var b', x := b[..|b| - 1], b[|b| - 1];
      var last := if CustomerMatches(x, search) then [x] else [];
      assert (a + b)[..|a + b| - 1] == a + b';
      assert (a + b)[|a + b| - 1] == x;
      var fa, fb' := FilterCustomers(a, search), FilterCustomers(b', search);
      assert FilterCustomers(a + b, search) == FilterCustomers(a + b', search) + last;
      assert FilterCustomers(b, search) == fb' + last;
      FilterCustomersAppend(a, b', search);
      assert (fa + fb') + last == fa + (fb' + last);
    }
  }

  /** A single row is kept exactly when it matches. */
  lemma FilterCustomersSingle(c: Customer, search: Option<string>)
    ensures FilterCustomers([c], search) == if CustomerMatches(c, search) then [c] else []
  {
    assert [c][..0] == [];
  }

  /** A customer whose name contains the term, in any ASCII letter case, is found. */
  lemma NameHitIsListed(rows: seq<Customer>, k: nat, term: string, i: nat)
    requires k < |rows| && term != ""
    requires i + |term| <= |rows[k].name|
    requires LowerAsciiString(rows[k].name)[i..i + |term|] == LowerAsciiString(term)
    ensures rows[k] in FilterCustomers(rows, Some(term))
  {
    var hay := LowerAsciiString(rows[k].name);
    var needle := LowerAsciiString(term);
    assert IsPrefix(needle, hay[i..]) by {
      assert hay[i..][..|needle|] == hay[i..i + |term|];
    }
    ContainsIff(hay, needle);
  }

  /** The response of `getAllCustomers`: one page of matches, their count and the page count. */
  datatype CustomerListing = CustomerListing(rows: seq<Customer>, total: nat, page: int, limit: int, totalPages: Option<int>)

  function ListCustomers(rows: seq<Customer>, search: Option<string>, page: int, limit: int): (r: CustomerListing)
    ensures r.rows == Window(FilterCustomers(rows, search), Offset(page, limit), limit)
    ensures r.total == |FilterCustomers(rows, search)| && r.page == page && r.limit == limit
    ensures forall c :: c in r.rows ==> c in rows && CustomerMatches(c, search)
    ensures limit >= 0 ==> |r.rows| <= limit
    ensures r.totalPages == TotalPages(r.total, limit)
  {
    var matches := FilterCustomers(rows, search);
    var window := Window(matches, Offset(page, limit), limit);
    assert forall c :: c in window ==> c in matches by {
      var o := Offset(page, limit);
      if 0 <= o <= |matches| {
        assert window == matches[o..o + |window|];
      }
    }
    CustomerListing(window, |matches|, page, limit, TotalPages(|matches|, limit))
  }

  datatype CustomerError =
    | NotFound // no customer with that id
    | HasSales // `Sale.count({ where: { customerId: id } }) > 0`

  /** The sales recorded for customer `id`: what `Sale.count` counts. */
  function SalesOf(sales: map<nat, Sale>, id: int): (r: set<nat>)
    ensures forall k :: k in r <==> k in sales && sales[k].customerId == Some(id)
  {
    set k | k in sales && sales[k].customerId == Some(id)
  }

  /** `deleteCustomer` on the database content. */
  function DeleteCustomerSpec(s: DbState, id: int): (r: Result<DbState, CustomerError>)
    ensures r == Err(NotFound) <==> id < 0 || id !in s.customers
    ensures r == Err(HasSales) <==> 0 <= id && id in s.customers && |SalesOf(s.sales, id)| > 0
    ensures r.Ok? ==> r.value == s.(customers := s.customers - {id as nat})
  {
    if id < 0 || id !in s.customers then Err(NotFound)
    else if |SalesOf(s.sales, id)| > 0 then Err(HasSales)
    else Ok(s.(customers := s.customers - {id}))
  }

  /**
   * A deletion the guard lets through never leaves a sale pointing at a
   * customer that existed and is now gone: every sale's customer is still there.
   */
  lemma DeleteCustomerKeepsReferences(s: DbState, id: int)
    requires DeleteCustomerSpec(s, id).Ok?
    ensures var s' := DeleteCustomerSpec(s, id).value;
      forall k :: k in s.sales && s.sales[k].customerId.Some? && s.sales[k].customerId.value in s.customers ==>
        s.sales[k].customerId.value in s'.customers
  {
    assert SalesOf(s.sales, id) == {};
  }

  /** `deleteCustomer` on the store: only `customers` may change, and only as `DeleteCustomerSpec` says. */
  method DeleteCustomer(db: Store, id: int) returns (r: Result<(), CustomerError>)
    requires db.Valid()
    modifies db
    ensures db.Valid()
    ensures var spec := DeleteCustomerSpec(old(db.State()), id);
      && (spec.Err? ==> r == Err(spec.error) && db.State() == old(db.State()))
      && (spec.Ok? ==> r == Ok(()) && db.State() == spec.value)
  {
    if id < 0 || id !in db.customers {
      return Err(NotFound);
    }
    var salesCount := |SalesOf(db.sales, id)|;
    if salesCount > 0 {
      return Err(HasSales);
    }
    db.customers := db.customers - {id};
    r := Ok(());
  }
}
