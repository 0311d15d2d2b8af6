/** The index arithmetic of the image carousel over `n = data.length` images: `handleNext`
    wraps from the last image to the first, `handlePrev` from the first to the last. The
    interval timer that calls `handleNext` every second is a caller of `Next`. */
module Carousel {

  /** `handleNext`: `prevIndex == data.length - 1 ? 0 : prevIndex + 1`. */
  function Next(index: int, n: int): int {
    if index == n - 1 then 0 else index + 1
  }

  /** `handlePrev`: `index === 0 ? data.length - 1 : index - 1`. */
  function Prev(index: int, n: int): int {
    if index == 0 then n - 1 else index - 1
  }

  /** The initial index 0 is a valid image index when there is at least one image. */
  const Initial: int := 0

  lemma InitialIsValid(n: int)
    requires n >= 1
    ensures 0 <= Initial < n
  {
  }

  /** On a valid index, next is `(i + 1) mod n` and stays valid, wrapping only at the end. */
  lemma NextWraps(index: int, n: int)
    requires 0 <= index < n
    ensures 0 <= Next(index, n) < n
    ensures Next(index, n) == (index + 1) % n
    ensures index == n - 1 ==> Next(index, n) == 0
    ensures index < n - 1 ==> Next(index, n) == index + 1
  {
  }

  /** On a valid index, prev is `(i - 1) mod n` and stays valid, wrapping only at the start. */
  lemma PrevWraps(index: int, n: int)
    requires 0 <= index < n
    ensures 0 <= Prev(index, n) < n
    ensures Prev(index, n) == (index - 1) % n
    ensures index == 0 ==> Prev(index, n) == n - 1
  {
  }

  /** Prev undoes next and next undoes prev. */
  lemma PrevNextInverse(index: int, n: int)
    requires 0 <= index < n
    ensures Prev(Next(index, n), n) == index
    ensures Next(Prev(index, n), n) == index
  {
  }

  /** The index after `k` ticks of the interval timer. */
  function Advance(index: int, n: int, k: nat): int {
    if k == 0 then index else Next(Advance(index, n, k - 1), n)
  }

  /** Ticks compose: `a + b` ticks are `a` ticks followed by `b` ticks. */
  lemma {:induction false} AdvanceCompose(index: int, n: int, a: nat, b: nat)
    ensures Advance(index, n, a + b) == Advance(Advance(index, n, a), n, b)
    decreases b
  {
    if b > 0 {
      AdvanceCompose(index, n, a, b - 1);
    }
  }

  /** Before reaching the last image the timer only counts up. */
  lemma {:induction false} AdvanceWithoutWrap(index: int, n: int, k: nat)
    requires 0 <= index && index + k < n
    ensures Advance(index, n, k) == index + k
  {
    if k > 0 {
      AdvanceWithoutWrap(index, n, k - 1);
    }
  }

  /** After `k` ticks the index is still a valid image index. */
  lemma {:induction false} AdvanceStaysValid(index: int, n: int, k: nat)
    requires 0 <= index < n
    ensures 0 <= Advance(index, n, k) < n
  {
    if k > 0 {
      AdvanceStaysValid(index, n, k - 1);
      NextWraps(Advance(index, n, k - 1), n);
    }
  }

  /** After `n` ticks the carousel is back at the image it started on. */
  lemma FullCycleReturns(index: int, n: int)
    requires 0 <= index < n
    ensures Advance(index, n, n) == index
  {
    var toLast := n - 1 - index;
    AdvanceWithoutWrap(index, n, toLast);
    AdvanceCompose(index, n, toLast, 1 + index);
    AdvanceCompose(n - 1, n, 1, index);
    AdvanceWithoutWrap(0, n, index);
  }

  /** The auto-advance is periodic with period `n`: `k + n` ticks show what `k` ticks show. */
  lemma AdvanceIsPeriodic(index: int, n: int, k: nat)
    requires 0 <= index < n
    ensures Advance(index, n, k + n) == Advance(index, n, k)
  {
    AdvanceCompose(index, n, k, n);
    AdvanceStaysValid(index, n, k);
    FullCycleReturns(Advance(index, n, k), n);
  }
}
