/**
 * The pagination arithmetic the list endpoints share: `offset = (page - 1) *
 * limit`, SQLite's `LIMIT`/`OFFSET` window over the matching rows, and
 * `totalPages = Math.ceil(count / limit)`.  `page` and `limit` are the values
 * `parseInt` gave.
 */
module Pagination {
  import opened Wrappers

  /** `(parseInt(page) - 1) * parseInt(limit)`: the rows pages `1 .. page - 1` hold. */
  function Offset(page: int, limit: int): (o: int)
    ensures page >= 1 && limit >= 0 ==> o >= 0
    ensures o + limit == page * limit
  {
    (page - 1) * limit
  }

  /**
   * `LIMIT limit OFFSET offset` as SQLite applies it: a negative offset counts
   * as zero, a negative limit means no limit, and the window stops at the last row.
   */
  function Window<T>(rows: seq<T>, offset: int, limit: int): (r: seq<T>)
    ensures |r| <= |rows|
    ensures limit >= 0 ==> |r| <= limit
    ensures 0 <= offset <= |rows| ==> offset + |r| <= |rows| && r == rows[offset..offset + |r|]
    ensures 0 <= offset && 0 <= limit && offset + limit <= |rows| ==> |r| == limit
    ensures offset >= |rows| ==> r == []
  {
    var start := if offset < 0 then 0 else if offset > |rows| then |rows| else offset;
    var end := if limit < 0 || start + limit > |rows| then |rows| else start + limit;
    rows[start..end]
  }

  /**
   * `Math.ceil(count / limit)`; `None` when the limit is zero, where the
   * quotient is `Infinity` or `NaN`.
   */
  function TotalPages(count: nat, limit: int): (r: Option<int>)
    ensures r.None? <==> limit == 0
    ensures limit > 0 ==> r.Some? && r.value >= 0 && count <= r.value * limit
    ensures limit > 0 && count > 0 ==> (r.value - 1) * limit < count
    ensures limit > 0 && count == 0 ==> r == Some(0)
    ensures limit < 0 ==> r.Some? && r.value <= 0
  {
    if limit == 0 then None
    else if limit > 0 then Some(CeilDiv(count, limit))
    else Some(-(count / -limit))
  }

  /** The least number of `limit`-sized pages that hold `count` rows. */
  function CeilDiv(count: nat, limit: nat): (q: nat)
    requires limit > 0
    ensures count <= q * limit
    ensures count > 0 ==> (q - 1) * limit < count
    ensures count == 0 ==> q == 0
  {
    var q := (count + limit - 1) / limit;
    var rem := (count + limit - 1) % limit;
    assert q * limit + rem == count + limit - 1;
    assert (q - 1) * limit == q * limit - limit;
    q
  }

  /** Pages `1 .. n` one after the other. */
  function PagesUpTo<T>(rows: seq<T>, limit: int, n: nat): seq<T> {
    if n == 0 then [] else PagesUpTo(rows, limit, n - 1) + Window(rows, Offset(n, limit), limit)
  }

  /** The first `n` pages are the first `n * limit` rows, or all of them. */
  lemma {:induction false} PagesUpToPrefix<T>(rows: seq<T>, limit: int, n: nat)
    requires limit > 0
    ensures n * limit <= |rows| ==> PagesUpTo(rows, limit, n) == rows[..n * limit]
    ensures n * limit > |rows| ==> PagesUpTo(rows, limit, n) == rows
  {
    if n == 0 {
      assert n * limit == 0;
    } else {
      var o := Offset(n, limit);
      assert o == (n - 1) * limit;
      assert o >= 0 by { MulNonNegative(n - 1, limit); }
      PagesUpToPrefix(rows, limit, n - 1);
      PrefixWindow(rows, o, limit, PagesUpTo(rows, limit, n - 1));
    }
  }

  /** The rows before `o`, followed by the window at `o`, are the rows before `o + limit`, or all of them. */
  lemma PrefixWindow<T>(rows: seq<T>, o: nat, limit: int, before: seq<T>)
    requires limit > 0
    requires o <= |rows| ==> before == rows[..o]
    requires o > |rows| ==> before == rows
    ensures o + limit <= |rows| ==> before + Window(rows, o, limit) == rows[..o + limit]
    ensures o + limit > |rows| ==> before + Window(rows, o, limit) == rows
  {
    var page := Window(rows, o, limit);
    if o >= |rows| {
      assert page == [];
      if o == |rows| { assert rows[..o] == rows; }
    } else if o + limit <= |rows| {
      assert page == rows[o..o + limit];
      assert rows[..o] + rows[o..o + limit] == rows[..o + limit];
    } else {
      assert page == rows[o..];
      assert rows[..o] + rows[o..] == rows;
    }
  }

  lemma MulNonNegative(a: nat, b: nat)
    ensures a * b >= 0
  {
  }

  lemma MulMonotone(a: int, b: int, c: nat)
    requires a <= b
    ensures a * c <= b * c
  {
  }

  /**
   * Reading pages `1 .. totalPages` gives every matching row exactly once, in
   * order, and every page after the last is empty.
   */
  lemma PagesCoverAll<T>(rows: seq<T>, limit: int)
    requires limit > 0
    ensures PagesUpTo(rows, limit, TotalPages(|rows|, limit).value) == rows
    ensures forall p :: p > TotalPages(|rows|, limit).value ==> Window(rows, Offset(p, limit), limit) == []
  {
    var t := TotalPages(|rows|, limit).value;
    var all := t * limit;
    assert |rows| <= all;
    PagesUpToPrefix(rows, limit, t);
    if all == |rows| {
      assert rows[..all] == rows;
    }
    forall p | p > t ensures Window(rows, Offset(p, limit), limit) == [] {
      var o := Offset(p, limit);
      assert o == (p - 1) * limit;
      MulMonotone(t, p - 1, limit);
      assert o >= |rows|;
    }
  }
}
