/** Small helpers shared by every module: an option type, the tail of a sequence,
    and the number of sleeps that fit before a deadline. */
module Prelude {

  datatype Option<+T> = None | Some(value: T)

  /** The last `n` elements of `s`, or all of it when it is shorter. */
  function Last<T>(s: seq<T>, n: nat): (r: seq<T>)
    ensures |r| == if |s| <= n then |s| else n
  {
    if |s| <= n then s else s[|s| - n..]
  }

  /** Appending one element and trimming again loses nothing `Last` would have kept. */
  lemma LastOfAppend<T>(s: seq<T>, x: T, n: nat)
    ensures Last(s + [x], n) == Last(Last(s, n) + [x], n)
  {
  }

  lemma LastIs<T>(s: seq<T>, base: nat, n: nat)
    requires base <= |s| && |s| - base <= n && (base == 0 || |s| - base == n)
    ensures s[base..] == Last(s, n)
  {
  }

  lemma LastAt<T>(s: seq<T>, n: nat, i: nat)
    requires i < |Last(s, n)|
    ensures Last(s, n)[i] == s[|s| - |Last(s, n)| + i]
  {
  }

  function Min(a: real, b: real): real {
    if a <= b then a else b
  }

  function Max(a: real, b: real): real {
    if a >= b then a else b
  }

  lemma {:induction false} SubsetSize<T>(a: set<T>, b: set<T>)
    requires a <= b
    ensures |a| <= |b|
  {
    if a != {} {
      var x :| x in a;
      SubsetSize(a - {x}, b - {x});
    }
  }

  /** Ceil(gap / step): how many sleeps of `step` seconds it takes to cover `gap`. */
  function Ticks(gap: real, step: real): (n: nat)
    requires step > 0.0
    ensures gap <= n as real * step
    ensures n > 0 ==> n as real * step - step < gap
  {
    if gap <= 0.0 then
      0
    else
      var q := gap / step;
      var n := -((-q).Floor);
      assert q * step == gap && q > 0.0;
      TicksBounds(gap, step, q, n as real);
      n
  }

  lemma TicksBounds(gap: real, step: real, q: real, r: real)
    requires step > 0.0 && q * step == gap && q <= r < q + 1.0
    ensures gap <= r * step && r * step - step < gap
  {
    Scale(q, r, step);
    var below := r - 1.0;
    assert below < q;
    Scale(below, q, step);
    assert below * step < gap;
    OneLess(r, below, step);
    assert r * step - step == below * step;
  }

  lemma OneLess(r: real, below: real, step: real)
    requires below == r - 1.0
    ensures below * step == r * step - step
  {
  }

  lemma Scale(a: real, b: real, step: real)
    requires step > 0.0
    ensures a <= b ==> a * step <= b * step
    ensures a < b ==> a * step < b * step
    ensures (a - 1.0) * step == a * step - step
  {
  }

  /** A smaller gap needs no more ticks, and one sleep of at least `step` uses one up. */
  lemma TicksOrder(smaller: real, larger: real, step: real)
    requires step > 0.0 && smaller <= larger
    ensures Ticks(smaller, step) <= Ticks(larger, step)
    ensures larger > 0.0 && smaller <= larger - step ==> Ticks(smaller, step) < Ticks(larger, step)
  {
    var q, r := smaller / step, larger / step;
    assert q * step == smaller && r * step == larger;
    Unscale(q, r, smaller, larger, step);
  }

  lemma Unscale(q: real, r: real, smaller: real, larger: real, step: real)
    requires step > 0.0 && q * step == smaller <= larger == r * step
    ensures q <= r
    ensures smaller <= larger - step ==> q <= r - 1.0
    ensures larger > 0.0 ==> r > 0.0
  {
    Scale(r, q, step);
    Scale(r - 1.0, q, step);
  }
}
