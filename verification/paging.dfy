/**
 * PageResult.of: a page of rows plus the page count
 * `(int) Math.ceil((double) total / pageSize)`, computed here on integers.
 */
module Paging {

  /** Integer.MAX_VALUE: where the (int) cast of a large double saturates. */
  const IntMax: int := 0x7fff_ffff

  datatype PageResult<T> = PageResult(list: seq<T>, total: nat, pageNum: int, pageSize: int, pages: int)

  /**
   * ceil(total / pageSize) cast to int. A zero page size divides to
   * +Infinity (cast to Integer.MAX_VALUE) or, for total 0, to NaN (cast to 0);
   * a negative page size gives a non-positive quotient.
   */
  function PageCount(total: nat, pageSize: int): (pages: int)
    ensures pageSize > 0 ==> 0 <= pages <= IntMax
    ensures pageSize > 0 && pages < IntMax ==> (pages - 1) * pageSize < total <= pages * pageSize || (total == 0 && pages == 0)
    ensures pageSize > 0 ==> (total == 0 <==> pages == 0)
    ensures pageSize == 0 ==> pages == (if total == 0 then 0 else IntMax)
  {
    if pageSize == 0 then (if total == 0 then 0 else IntMax)
    else if pageSize < 0 then -(total / -pageSize)
    else
      var q := (total + pageSize - 1) / pageSize;
      CeilingBounds(total, pageSize);
      if q > IntMax then IntMax else q
  }

  /** The integer ceiling sits between the two neighbouring multiples. */
  lemma CeilingBounds(total: nat, size: int)
    requires size > 0
    ensures var q := (total + size - 1) / size;
      q >= 0 && (total == 0 <==> q == 0) && (total > 0 ==> (q - 1) * size < total <= q * size)
  {
    var q := (total + size - 1) / size;
    var r := (total + size - 1) % size;
    assert total + size - 1 == q * size + r && 0 <= r < size;
    assert (q - 1) * size == q * size - size;
  }

  /** Any page count meeting the bounds is the ceiling PageCount computes. */
  lemma {:induction false} PageCountIsTheCeiling(total: nat, size: int, p: nat)
    requires size > 0 && total > 0
    requires (p - 1) * size < total <= p * size
    requires p <= IntMax
    ensures PageCount(total, size) == p
  {
    var q := (total + size - 1) / size;
    CeilingBounds(total, size);
    if p < q {
      MulMonotone(p, q - 1, size);
    } else if q < p {
      MulMonotone(q, p - 1, size);
    }
  }

  lemma MulMonotone(a: int, b: int, c: int)
    requires a <= b && c > 0
    ensures a * c <= b * c
  {
    assert b * c - a * c == (b - a) * c;
  }

  /** PageResult.of copies its four arguments and derives the page count. */
  function Of<T>(list: seq<T>, total: nat, pageNum: int, pageSize: int): (r: PageResult<T>)
    ensures r.list == list && r.total == total && r.pageNum == pageNum && r.pageSize == pageSize
    ensures pageSize > 0 && r.pages < IntMax ==> r.pages * pageSize >= total
  {
    PageResult(list, total, pageNum, pageSize, PageCount(total, pageSize))
  }
}
