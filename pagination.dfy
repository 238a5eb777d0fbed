/**
  The page arithmetic of `find_all_businesses`: `page` and `limit` are `u32` query
  parameters that default to 1 and 20, and the skip is `(page - 1) * limit` computed in
  `u32`. The model follows a release build, where that arithmetic wraps modulo 2^32 (a
  debug build panics instead).
*/
module Pagination {
  import opened Wrappers

  const U32Modulus: int := 0x1_0000_0000

  newtype u32 = x: int | 0 <= x < 0x1_0000_0000

  datatype PaginationParams = PaginationParams(page: Option<u32>, limit: Option<u32>)

  const DefaultPage: u32 := 1
  const DefaultLimit: u32 := 20

  function WrappingSub(a: u32, b: u32): u32 {
    ((a as int - b as int) % U32Modulus) as u32
  }

  function WrappingMul(a: u32, b: u32): u32 {
    ((a as int * b as int) % U32Modulus) as u32
  }

  function PageOf(q: PaginationParams): u32 {
    match q.page
    case Some(p) => p
    case None => DefaultPage
  }

  function LimitOf(q: PaginationParams): u32 {
    match q.limit
    case Some(l) => l
    case None => DefaultLimit
  }

  /** The skip as the handler computes it: `(page - 1) * limit` in wrapping `u32`. */
  function SkipAsWritten(q: PaginationParams): u32 {
    WrappingMul(WrappingSub(PageOf(q), 1), LimitOf(q))
  }

  /** The intended skip: page 0 is read as page 1, and nothing wraps. */
  function ClampedSkip(q: PaginationParams): nat {
    var page := PageOf(q) as int;
    (if page == 0 then 0 else page - 1) * LimitOf(q) as int
  }

  /** Without parameters the first twenty items are asked for. */
  lemma Defaults()
    ensures SkipAsWritten(PaginationParams(None, None)) == 0
    ensures LimitOf(PaginationParams(None, None)) == 20
  {
  }

  /** While `(page - 1) * limit` fits in 32 bits, the handler's skip is that offset. */
  lemma SkipIsOffset(q: PaginationParams)
    requires PageOf(q) >= 1
    requires (PageOf(q) as int - 1) * LimitOf(q) as int < U32Modulus
    ensures SkipAsWritten(q) as int == (PageOf(q) as int - 1) * LimitOf(q) as int == ClampedSkip(q)
  {
  }

  /** Page 0 does not mean page 1: `0 - 1` wraps and the skip lands `limit` short of 2^32. */
  lemma PageZeroWraps(limit: u32)
    requires limit > 0
    ensures SkipAsWritten(PaginationParams(Some(0), Some(limit))) as int == U32Modulus - limit as int
    ensures ClampedSkip(PaginationParams(Some(0), Some(limit))) == 0
  {
    var q := PaginationParams(Some(0), Some(limit));
    assert WrappingSub(0, 1) as int == U32Modulus - 1;
    assert (U32Modulus - 1) * limit as int == (limit as int - 1) * U32Modulus + (U32Modulus - limit as int);
  }

  /** A large page wraps back to the start: page 2^31 + 1 of size 2 skips nothing, as page 1 does. */
  lemma LargePageWraps()
    ensures SkipAsWritten(PaginationParams(Some(0x8000_0001), Some(2))) == 0
    ensures SkipAsWritten(PaginationParams(Some(1), Some(2))) == 0
    ensures ClampedSkip(PaginationParams(Some(0x8000_0001), Some(2))) == U32Modulus
  {
  }

  /** The intended skip grows with the page: later pages never start before earlier ones. */
  lemma ClampedSkipMonotone(q: PaginationParams, r: PaginationParams)
    requires LimitOf(q) == LimitOf(r) && PageOf(q) <= PageOf(r)
    ensures ClampedSkip(q) <= ClampedSkip(r)
  {
    var l := LimitOf(q) as int;
    var a, b := PageOf(q) as int, PageOf(r) as int;
    var a' := if a == 0 then 0 else a - 1;
    var b' := if b == 0 then 0 else b - 1;
    MulMonotone(a', b', l);
  }

  lemma MulMonotone(a: nat, b: nat, l: nat)
    requires a <= b
    ensures a * l <= b * l
  {
    assert b * l == a * l + (b - a) * l;
  }
}
