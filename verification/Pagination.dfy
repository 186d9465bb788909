/** Page arithmetic, over a result list in a fixed order. */
module Pagination {

  datatype PageParams = PageParams(page: nat, size: nat)

  // What the request schema admits.
  predicate Valid(p: PageParams) {
    p.page >= 1 && p.size >= 1
  }

  function Offset(p: PageParams): nat
    requires Valid(p)
  {
    (p.page - 1) * p.size
  }

  // Page.create's page count; a size of zero gives none.
  function Pages(total: nat, size: nat): nat {
    if size == 0 then 0 else (total + size - 1) / size
  }

  function Min(a: nat, b: nat): nat {
    if a < b then a else b
  }

  // OFFSET and LIMIT.
  function Items<T>(rows: seq<T>, p: PageParams): seq<T>
    requires Valid(p)
  {
    rows[Min(Offset(p), |rows|)..Min(Offset(p) + p.size, |rows|)]
  }

  function FirstPages<T>(rows: seq<T>, size: nat, pages: nat): seq<T>
    requires size >= 1
  {
    if pages == 0 then [] else FirstPages(rows, size, pages - 1) + Items(rows, PageParams(pages, size))
  }

  lemma {:induction false} FirstPagesArePrefix<T>(rows: seq<T>, size: nat, pages: nat)
    requires size >= 1
    ensures FirstPages(rows, size, pages) == rows[..Min(pages * size, |rows|)]
  {
    if pages > 0 {
      FirstPagesArePrefix(rows, size, pages - 1);
      assert pages * size == (pages - 1) * size + size;
    }
  }

  // `pages` is the least number of pages that hold everything.
  lemma PagesFit(total: nat, size: nat)
    requires size >= 1
    ensures total <= Pages(total, size) * size < total + size
  {
    var n := total + size - 1;
    assert n == Pages(total, size) * size + n % size;
  }

  lemma Scaled(a: nat, b: nat, size: nat)
    requires a <= b
    ensures a * size <= b * size
  {
  }

  /** Pages 1 to `pages` partition the result: laid end to end they are the list itself, none is empty, all but the last
      are full, and every later page is empty. */
  lemma PagesPartition<T>(rows: seq<T>, size: nat)
    requires size >= 1
    ensures FirstPages(rows, size, Pages(|rows|, size)) == rows
    ensures forall p: nat :: 1 <= p <= Pages(|rows|, size) ==> Items(rows, PageParams(p, size)) != []
    ensures forall p: nat :: 1 <= p < Pages(|rows|, size) ==> |Items(rows, PageParams(p, size))| == size
    ensures forall p: nat :: p > Pages(|rows|, size) ==> Items(rows, PageParams(p, size)) == []
  {
    var pages := Pages(|rows|, size);
    PagesFit(|rows|, size);
    FirstPagesArePrefix(rows, size, pages);
    forall p: nat | p >= 1
      ensures p <= pages ==> Items(rows, PageParams(p, size)) != []
      ensures p < pages ==> |Items(rows, PageParams(p, size))| == size
      ensures p > pages ==> Items(rows, PageParams(p, size)) == []
    {
      assert p * size == (p - 1) * size + size;
      if p <= pages { Scaled(p, pages, size); }
      if p < pages { Scaled(p + 1, pages, size); assert (p + 1) * size == p * size + size; }
      if p > pages { Scaled(pages, p - 1, size); }
    }
  }
}
