/**
 * Small helpers (src/helpers/primitive_helpers.ts): a random pick from a
 * list, and a picker closure that cycles through a list, used for the
 * colours of new frames.
 */
module PrimitiveHelpers {
  import opened Wrappers

  /**
   * pickRandom(ts) for the value `random` drawn by Math.random(), which lies
   * in [0, 1). Indexing an empty list yields undefined.
   */
  function PickRandom<T>(ts: seq<T>, random: real): (r: Option<T>)
    requires 0.0 <= random < 1.0
    ensures r.Some? <==> |ts| > 0
    ensures r.Some? ==> r.value in ts
  {
    var i := (random * |ts| as real).Floor;
    FloorBelow(random, |ts|);
    if 0 <= i < |ts| then Some(ts[i]) else None
  }

  /** floor(random * n) is a valid index of a list of n > 0 elements. */
  lemma FloorBelow(random: real, n: nat)
    requires 0.0 <= random < 1.0
    ensures n > 0 ==> 0 <= (random * n as real).Floor < n
  {
    if n > 0 {
      var x := random * n as real;
      assert 0.0 <= x by {
        assert 0.0 <= random && 0.0 <= n as real;
      }
      assert x < n as real by {
        assert (1.0 - random) * n as real > 0.0;
      }
    }
  }

  /** Every element can be picked: a draw of j / |ts| picks ts[j]. */
  lemma PickRandomReachesEvery<T>(ts: seq<T>, j: nat)
    requires j < |ts|
    ensures 0.0 <= j as real / |ts| as real < 1.0
    ensures PickRandom(ts, j as real / |ts| as real) == Some(ts[j])
  {
    var n := |ts| as real;
    assert j as real / n * n == j as real;
  }

  /** What the picker returns on its n-th call, counting from 0; undefined for an empty list. */
  function PickAt<T>(ts: seq<T>, n: nat): (r: Option<T>)
    ensures r.Some? <==> |ts| > 0
    ensures r.Some? ==> r.value in ts
    ensures n < |ts| ==> r == Some(ts[n])
  {
    if |ts| == 0 then None else Some(ts[n % |ts|])
  }

  /** The picker cycles: the call |ts| later returns the same value. */
  lemma PickAtPeriodic<T>(ts: seq<T>, n: nat)
    ensures PickAt(ts, n + |ts|) == PickAt(ts, n)
  {
    if |ts| > 0 {
      ModAddPeriod(n, |ts|);
    }
  }

  lemma ModAddPeriod(n: nat, k: nat)
    requires k > 0
    ensures (n + k) % k == n % k
  {
    var q, r := n / k, n % k;
    assert n == q * k + r;
    assert n + k == (q + 1) * k + r;
    DivModUnique(n + k, k, q + 1, r);
  }

  lemma DivModUnique(a: int, k: int, q: int, r: int)
    requires k > 0 && 0 <= r < k && a == q * k + r
    ensures a % k == r
  {
    var q', r' := a / k, a % k;
    assert a == q' * k + r';
    assert (q - q') * k == r' - r by {
      assert q * k - q' * k == (q - q') * k;
    }
    if q > q' {
      AtLeastOnce(q - q', k);
    } else if q < q' {
      AtLeastOnce(q' - q, k);
    }
  }

  lemma AtLeastOnce(d: int, k: int)
    requires d >= 1 && k > 0
    ensures d * k >= k
  {
    assert d * k == (d - 1) * k + k;
  }

  /** The closure returned by createPicker(ts): `i` counts the calls made so far. */
  class Picker<T> {
    const ts: seq<T>
    var i: nat

    constructor(ts: seq<T>)
      ensures this.ts == ts && i == 0
    {
      this.ts := ts;
      i := 0;
    }

    /** One call of the closure: ts[i++ % ts.length]. */
    method Pick() returns (r: Option<T>)
      modifies this
      ensures r == PickAt(ts, old(i))
      ensures i == old(i) + 1
    {
      if |ts| == 0 {
        r := None;
      } else {
        r := Some(ts[i % |ts|]);
      }
      i := i + 1;
    }
  }

  /** The colours randomColorPicker cycles through. */
  const RandomColors: seq<string> := ["#aaf", "#faa", "#afa", "#ffa", "#faf", "#aff"]

  /** The module-level randomColorPicker, as created when the module loads. */
  method RandomColorPicker() returns (p: Picker<string>)
    ensures fresh(p) && p.ts == RandomColors && p.i == 0
  {
    p := new Picker(RandomColors);
  }

  /** The colour of the n-th new frame: the six colours in order, then again from the first. */
  lemma RandomColorOrder(n: nat)
    ensures PickAt(RandomColors, n) == Some(RandomColors[n % 6])
    ensures PickAt(RandomColors, 0) == Some("#aaf") && PickAt(RandomColors, 6) == Some("#aaf")
  {
    PickAtPeriodic(RandomColors, 0);
  }
}
