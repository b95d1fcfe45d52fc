/** Counting the instants of a window that satisfy a predicate: time as a sum over microseconds. */
module Measure {

  ghost function Count(a: int, b: int, p: int -> bool): nat
    decreases b - a
  {
    if a >= b then 0 else Count(a, b - 1, p) + if p(b - 1) then 1 else 0
  }

  lemma {:induction false} CountSplit(a: int, m: int, b: int, p: int -> bool)
    requires a <= m <= b
    ensures Count(a, b, p) == Count(a, m, p) + Count(m, b, p)
    decreases b - m
  {
    if m < b { CountSplit(a, m, b - 1, p); }
  }

  lemma {:induction false} CountSame(a: int, b: int, p: int -> bool, q: int -> bool)
    requires forall t | a <= t < b :: p(t) == q(t)
    ensures Count(a, b, p) == Count(a, b, q)
    decreases b - a
  {
    if a < b { CountSame(a, b - 1, p, q); }
  }

  lemma {:induction false} CountAll(a: int, b: int, p: int -> bool)
    requires a <= b && forall t | a <= t < b :: p(t)
    ensures Count(a, b, p) == b - a
    decreases b - a
  {
    if a < b { CountAll(a, b - 1, p); }
  }

  lemma {:induction false} CountNone(a: int, b: int, p: int -> bool)
    requires forall t | a <= t < b :: !p(t)
    ensures Count(a, b, p) == 0
    decreases b - a
  {
    if a < b { CountNone(a, b - 1, p); }
  }

  lemma {:induction false} CountPositive(a: int, b: int, p: int -> bool)
    ensures Count(a, b, p) > 0 <==> exists t :: a <= t < b && p(t)
    decreases b - a
  {
    if a < b { CountPositive(a, b - 1, p); }
  }

  lemma {:induction false} CountAtMost(a: int, b: int, p: int -> bool, q: int -> bool)
    requires forall t | a <= t < b && p(t) :: q(t)
    ensures Count(a, b, p) <= Count(a, b, q)
    decreases b - a
  {
    if a < b { CountAtMost(a, b - 1, p, q); }
  }

  /** When `q` is the disjoint union of `p` and `r`, the counts add. */
  lemma {:induction false} CountSum(a: int, b: int, p: int -> bool, r: int -> bool, q: int -> bool)
    requires forall t | a <= t < b :: q(t) == (p(t) || r(t)) && !(p(t) && r(t))
    ensures Count(a, b, q) == Count(a, b, p) + Count(a, b, r)
    decreases b - a
  {
    if a < b { CountSum(a, b - 1, p, r, q); }
  }

  /** Adding the span [l, r) to a predicate that was false from `l` on adds r - l. */
  lemma CountAppend(a: int, b: int, l: int, r: int, p: int -> bool, q: int -> bool)
    requires a <= l <= r <= b
    requires forall t | a <= t < b :: q(t) == (p(t) || l <= t < r)
    requires forall t | l <= t < b :: !p(t)
    ensures Count(a, b, q) == Count(a, b, p) + (r - l)
  {
    CountSplit(a, l, b, p);
    CountSplit(a, l, b, q);
    CountSplit(l, r, b, q);
    CountSame(a, l, p, q);
    CountNone(l, b, p);
    CountAll(l, r, q);
    CountNone(r, b, q);
  }
}
