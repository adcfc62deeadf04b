/**
 * Matcher.find for the handful of fixed patterns the parsers use: a pattern is given as a
 * function `at` that says whether (and how) the pattern matches starting at a position, and
 * find reports the leftmost starting position at which it does.
 */
module Matching {
  import opened Wrappers

  /** The first position q in [from, last] with `at(q)` a match, together with that match. */
  function Leftmost<H>(at: nat -> Option<H>, from: nat, last: nat): (r: Option<(nat, H)>)
    ensures r.Some? ==> from <= r.value.0 <= last && at(r.value.0) == Some(r.value.1)
    ensures r.Some? ==> forall q: nat :: from <= q < r.value.0 ==> at(q).None?
    ensures r.None? ==> forall q: nat :: from <= q <= last ==> at(q).None?
    decreases if from <= last then last - from + 1 else 0
  {
    if from > last then None
    else match at(from)
      case Some(h) => Some((from, h))
      case None => Leftmost(at, from + 1, last)
  }
}
