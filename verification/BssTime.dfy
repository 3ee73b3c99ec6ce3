/** Relative times of scan results: seconds and microseconds, as os_reltime holds them. */
module BssTime {

  datatype Time = Time(sec: int, usec: int)

  predicate Normal(t: Time) {
    0 <= t.usec < 1_000_000
  }

  function Micros(t: Time): int {
    t.sec * 1_000_000 + t.usec
  }

  predicate Before(a: Time, b: Time) {
    a.sec < b.sec || (a.sec == b.sec && a.usec < b.usec)
  }

  /** Comparing seconds first, then microseconds, is comparing microseconds in all. */
  lemma BeforeIsNumeric(a: Time, b: Time)
    requires Normal(a) && Normal(b)
    ensures Before(a, b) <==> Micros(a) < Micros(b)
  {
  }

  /** When the result was received: its age in milliseconds before it was fetched. */
  function UpdateTime(fetch: Time, ageMs: nat): (t: Time)
    ensures Micros(t) == Micros(fetch) - 1000 * ageMs
    ensures Normal(fetch) ==> Normal(t)
  {
    var sec := fetch.sec - ageMs / 1000;
    var usec := ageMs % 1000 * 1000;
    if fetch.usec < usec then Time(sec - 1, fetch.usec + 1_000_000 - usec) else Time(sec, fetch.usec - usec)
  }

  method CalculateUpdateTime(fetch: Time, ageMs: nat) returns (t: Time)
    ensures Micros(t) == Micros(fetch) - 1000 * ageMs
    ensures Normal(fetch) ==> Normal(t)
    ensures t == UpdateTime(fetch, ageMs)
  {
    t := fetch;
    t := t.(sec := t.sec - ageMs / 1000);
    var usec := ageMs % 1000 * 1000;
    if t.usec < usec {
      t := t.(sec := t.sec - 1, usec := t.usec + 1_000_000);
    }
    t := t.(usec := t.usec - usec);
  }
}
