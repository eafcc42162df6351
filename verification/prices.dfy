/**
  Prices as the comparator sees them. A JavaScript number reaching the
  comparison is either a finite price or the `Infinity` placeholder that the
  comparator substitutes for a missing (null) price; NaN never reaches it,
  because every scraper turns an unparseable price into null.
*/
module Prices {
  import opened Wrappers

  type Price = real

  datatype Ext = Fin(value: Price) | Infinity

  /** JavaScript `<` on these values. */
  predicate Less(a: Ext, b: Ext) {
    match a
    case Infinity => false
    case Fin(x) => b.Infinity? || x < b.value
  }

  predicate AtMost(a: Ext, b: Ext) {
    !Less(b, a)
  }

  /** `Math.min` of two values. */
  function Min(a: Ext, b: Ext): (m: Ext)
    ensures m == a || m == b
    ensures AtMost(m, a) && AtMost(m, b)
  {
    if Less(b, a) then b else a
  }

  /** Being below the minimum is being below both operands. */
  lemma BelowMin(x: Ext, a: Ext, b: Ext)
    ensures Less(x, Min(a, b)) <==> Less(x, a) && Less(x, b)
  {
  }

  /** `if (p == null) p = Infinity` on a field that may already hold a number. */
  function OrInf(p: Option<Ext>): Ext {
    match p
    case None => Infinity
    case Some(e) => e
  }

  /** A nullable scraped price, with null read as +∞. */
  function PriceOrInf(p: Option<Price>): Ext {
    match p
    case None => Infinity
    case Some(x) => Fin(x)
  }

  /**
    The reference reading of "lower than all the other prices": `x` is
    strictly below every value of `ps`.
  */
  predicate BelowAll(x: Ext, ps: seq<Ext>) {
    forall i :: 0 <= i < |ps| ==> Less(x, ps[i])
  }

  /** `BelowAll` on two current and three last prices, spelled out. */
  lemma BelowAllFive(x: Ext, a: Ext, b: Ext, c: Ext, d: Ext, e: Ext)
    ensures BelowAll(x, [a, b] + [c, d, e])
        <==> Less(x, a) && Less(x, b) && Less(x, c) && Less(x, d) && Less(x, e)
  {
    var ps := [a, b] + [c, d, e];
    assert ps[0] == a && ps[1] == b && ps[2] == c && ps[3] == d && ps[4] == e;
  }
}
