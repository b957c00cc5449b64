/** Values shared by every part of the model: optional JSON fields and
    JavaScript `Date` instants. */
module Basics {

  /** A JSON field that may be `null` or missing. */
  datatype Option<+T> = None | Some(value: T) {
    function GetOr(default: T): T {
      match this
      case Some(v) => v
      case None => default
    }
  }

  /** The value of `new Date(text)`: either a millisecond instant or the
      "Invalid Date" whose `getTime()` is NaN. Parsing itself is a parameter of
      every operation that needs it (`parse: string -> Time`). */
  datatype Time = Invalid | At(ms: int)

  /** JavaScript `d < c` for a date `d` and an instant `c`; every comparison
      with NaN is false. */
  predicate Lt(t: Time, c: int) { t.At? && t.ms < c }

  /** JavaScript `d > c`. */
  predicate Gt(t: Time, c: int) { t.At? && t.ms > c }

  /** JavaScript `d >= c`. */
  predicate Ge(t: Time, c: int) { t.At? && t.ms >= c }

  /** JavaScript `d <= c`. */
  predicate Le(t: Time, c: int) { t.At? && t.ms <= c }

  /** The admission test `!(d < since || d > now)` used by the review and
      triage loops. An Invalid Date passes it, because both comparisons are
      false. */
  predicate NotOutside(t: Time, since: int, now: int) {
    !(Lt(t, since) || Gt(t, now))
  }

  lemma NotOutsideMeaning(t: Time, since: int, now: int)
    ensures NotOutside(t, since, now) <==> (t.Invalid? || since <= t.ms <= now)
  {
  }
}
