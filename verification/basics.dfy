/** Stock types and functions shared by the models. */
module Basics {

  datatype Option<+T> = None | Some(value: T)

  /** All the parts, one behind the other. */
  function Concat<T>(parts: seq<seq<T>>): seq<T> {
    if parts == [] then [] else parts[0] + Concat(parts[1..])
  }

  lemma ConcatCons<T>(head: seq<T>, tail: seq<seq<T>>)
    ensures Concat([head] + tail) == head + Concat(tail)
  {
    assert ([head] + tail)[1..] == tail;
  }

  lemma {:induction false} ConcatSnoc<T>(parts: seq<seq<T>>, last: seq<T>)
    ensures Concat(parts + [last]) == Concat(parts) + last
  {
    if parts == [] {
      assert parts + [last] == [last] + [];
      ConcatCons(last, []);
    } else {
      ConcatSnoc(parts[1..], last);
      assert parts + [last] == [parts[0]] + (parts[1..] + [last]);
      ConcatCons(parts[0], parts[1..] + [last]);
    }
  }

  // ---------------------------------------------------------------- products and quotients

  lemma {:induction false} Times(a: nat, b: nat, p: nat)
    requires a <= b
    ensures a * p <= b * p && (a < b && p > 0 ==> a * p < b * p)
    decreases p
  {
    if p > 0 {
      Times(a, b, p - 1);
      assert a * p == a * (p - 1) + a && b * p == b * (p - 1) + b;
    }
  }

  lemma SameDivision(a: nat, r: nat, b: nat, r2: nat, d: nat)
    requires r < d && r2 < d && a * d + r == b * d + r2
    ensures a == b && r == r2
  {
    if a < b {
      assert (a + 1) * d == a * d + d;
      Times(a + 1, b, d);
    } else if a > b {
      assert (b + 1) * d == b * d + d;
      Times(b + 1, a, d);
    }
  }

  lemma QuotientIs(v: nat, d: nat, q: nat, r: nat)
    requires r < d && v == q * d + r
    ensures v / d == q && v % d == r
  {
    assert v == v / d * d + v % d;
    SameDivision(v / d, v % d, q, r, d);
  }
}
