/** Copies with an offset and a step, as records and array code use them: one signal of several
    that share a buffer. */
module Strides {
  import opened Numbers

  /** The elements of a, in order, at i, i + step, ... of mem, as far as both reach. */
  function Scattered<T>(mem: seq<T>, a: seq<T>, i: nat, step: nat): (r: seq<T>)
    ensures |r| == |mem|
    decreases |a|
  {
    if a == [] || i >= |mem| then mem else Scattered(mem[i := a[0]], a[1..], i + step, step)
  }

  /** At most n elements of mem at i, i + step, ... below bound. */
  function Gathered<T>(mem: seq<T>, i: nat, step: nat, bound: nat, n: nat): (r: seq<T>)
    requires bound <= |mem|
    ensures |r| <= n
    decreases n
  {
    if n == 0 || i >= bound then [] else [mem[i]] + Gathered(mem, i + step, step, bound, n - 1)
  }

  /** Which element of the array lands on position x, or -1. */
  function Landed(n: nat, i: nat, step: nat, x: nat): int
    requires step > 0
  {
    if x >= i && (x - i) % step == 0 && (x - i) / step < n then (x - i) / step else -1
  }

  lemma LandedNext(n: nat, i: nat, step: nat, x: nat)
    requires step > 0 && n > 0
    ensures Landed(n, i, step, x) == (if x == i then 0 else if Landed(n - 1, i + step, step, x) < 0 then -1 else Landed(n - 1, i + step, step, x) + 1)
  {
    if x >= i + step {
      var q, q' := (x - i) / step, (x - i - step) / step;
      Divides(x - i, step);
      Divides(x - i - step, step);
      Quotients(x - i, step);
    } else if x > i {
      assert (x - i) % step == x - i;
    } else if x == i {
      assert 0 / step == 0 && 0 % step == 0;
    }
  }

  /** Every position gets the element that lands on it and keeps its own if there is none. */
  lemma {:induction false} ScatteredAt<T>(mem: seq<T>, a: seq<T>, i: nat, step: nat, x: nat)
    requires step > 0 && x < |mem|
    ensures var j := Landed(|a|, i, step, x);
      Scattered(mem, a, i, step)[x] == if 0 <= j < |a| then a[j] else mem[x]
    decreases |a|
  {
    if a != [] {
      LandedNext(|a|, i, step, x);
      if i < |mem| {
        ScatteredAt(mem[i := a[0]], a[1..], i + step, step, x);
      }
    }
  }

  /** How many elements fit. */
  function Fits(i: nat, step: nat, bound: nat): nat
    requires step > 0
  {
    if i >= bound then 0 else (bound - i + step - 1) / step
  }

  lemma FitsNext(i: nat, step: nat, bound: nat)
    requires step > 0 && i < bound
    ensures Fits(i, step, bound) == Fits(i + step, step, bound) + 1
  {
    if i + step < bound {
      Quotients(bound - i + step - 1, step);
    } else {
      OneQuotient(bound - i + step - 1, step, 1, bound - i - 1);
    }
  }

  /** Exactly the elements that fit and are asked for, each from its place. */
  lemma {:induction false} GatheredAt<T>(mem: seq<T>, i: nat, step: nat, bound: nat, n: nat, j: nat)
    requires step > 0 && bound <= |mem|
    ensures |Gathered(mem, i, step, bound, n)| == if n <= Fits(i, step, bound) then n else Fits(i, step, bound)
    ensures j < |Gathered(mem, i, step, bound, n)| ==> i + j * step < bound && Gathered(mem, i, step, bound, n)[j] == mem[i + j * step]
    decreases n
  {
    if n == 0 || i >= bound {
      assert Fits(i, step, bound) >= 0;
    } else {
      FitsNext(i, step, bound);
      hide Fits;
      if j == 0 {
        GatheredAt(mem, i + step, step, bound, n - 1, 0);
      } else {
        Distribute(j, 1, step);
        GatheredAt(mem, i + step, step, bound, n - 1, j - 1);
      }
    }
  }

  /** What has been scattered is gathered again, and with a sibling of the same step and another
      offset the two do not disturb each other. */
  lemma {:induction false} RoundTrip<T>(mem: seq<T>, a: seq<T>, i: nat, step: nat)
    requires step > 0 && |a| <= Fits(i, step, |mem|)
    ensures Gathered(Scattered(mem, a, i, step), i, step, |mem|, |a|) == a
  {
    var s := Scattered(mem, a, i, step);
    GatheredAt(s, i, step, |mem|, |a|, 0);
    forall j | 0 <= j < |a| ensures Gathered(s, i, step, |mem|, |a|)[j] == a[j] {
      GatheredAt(s, i, step, |mem|, |a|, j);
      ScatteredAt(mem, a, i, step, i + j * step);
      OneQuotient(j * step, step, j, 0);
    }
  }

  lemma {:induction false} Siblings<T>(mem: seq<T>, a: seq<T>, i: nat, h: nat, step: nat, n: nat)
    requires step > 0 && i % step != h % step
    ensures Gathered(Scattered(mem, a, i, step), h, step, |mem|, n) == Gathered(mem, h, step, |mem|, n)
  {
    var s := Scattered(mem, a, i, step);
    GatheredAt(s, h, step, |mem|, n, 0);
    GatheredAt(mem, h, step, |mem|, n, 0);
    forall j | 0 <= j < |Gathered(mem, h, step, |mem|, n)| ensures Gathered(s, h, step, |mem|, n)[j] == Gathered(mem, h, step, |mem|, n)[j] {
      GatheredAt(s, h, step, |mem|, n, j);
      GatheredAt(mem, h, step, |mem|, n, j);
      var x := h + j * step;
      ScatteredAt(mem, a, i, step, x);
      if x >= i && (x - i) % step == 0 {
        Congruent(h, j, i, step);
      }
    }
  }

  lemma Congruent(h: nat, j: nat, i: nat, step: nat)
    requires step > 0 && h + j * step >= i && (h + j * step - i) % step == 0
    ensures h % step == i % step
  {
    var q := (h + j * step - i) / step;
    Divides(h + j * step - i, step);
    Divides(i, step);
    assert h == (q - j + i / step) * step + i % step;
    OneQuotient(h, step, q - j + i / step, i % step);
  }
}
