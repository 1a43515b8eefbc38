/** Java's 32-bit two's-complement `int` and the `hc = 31 * hc + x` hash
    step, with the facts about it that the hash properties rest on. */
module JavaInt {

  const TWO_32: int := 0x1_0000_0000
  const MIN_INT: int := -0x8000_0000
  const MAX_INT: int := 0x7FFF_FFFF

  /** The multiplicative inverse of 31 modulo 2^32 (31 is odd). */
  const INV_31: int := 0xBDEF_7BDF

  type Int32 = x: int | MIN_INT <= x <= MAX_INT

  /** Java's `String.hashCode()`. Its UTF-16 polynomial is not modelled;
      every operation that hashes a string takes it as a parameter. */
  type StringHash = string -> Int32

  /** Java's narrowing of an exact integer result to `int`. */
  function Wrap(x: int): (r: Int32)
    ensures (x - r) % TWO_32 == 0
    ensures MIN_INT <= x <= MAX_INT ==> r == x
  {
    (x - MIN_INT) % TWO_32 + MIN_INT
  }

  /** Java's `31 * acc + v` evaluated on `int`. */
  function Step31(acc: Int32, v: Int32): Int32
  {
    Wrap(31 * acc + v)
  }

  /** The running hash `hc = 31 * hc + v` over `vs`, in order, from `seed`. */
  function Fold31(seed: Int32, vs: seq<Int32>): Int32
  {
    if |vs| == 0 then seed else Step31(Fold31(seed, vs[..|vs| - 1]), vs[|vs| - 1])
  }

  /** Two 32-bit values congruent modulo 2^32 are equal. */
  lemma CongruentEqual(a: Int32, b: Int32)
    requires (a - b) % TWO_32 == 0
    ensures a == b
  {
    var d := a - b;
    assert -TWO_32 < d < TWO_32;
    assert d == (d / TWO_32) * TWO_32;
  }

  /** If 31 * d is a multiple of 2^32 then so is d, because 31 is invertible
      modulo 2^32. */
  lemma Times31Cancels(d: int)
    requires (31 * d) % TWO_32 == 0
    ensures d % TWO_32 == 0
  {
    var k := (31 * d) / TWO_32;
    assert 31 * d == k * TWO_32;
    assert 31 * INV_31 == 23 * TWO_32 + 1;
    calc {
      d;
    ==  (31 * INV_31 - 23 * TWO_32) * d;
    ==  INV_31 * (31 * d) - 23 * TWO_32 * d;
    ==  INV_31 * (k * TWO_32) - 23 * TWO_32 * d;
    ==  (INV_31 * k - 23 * d) * TWO_32;
    }
  }

  /** One hash step is one-to-one in the accumulator: different running
      hashes stay different after folding in the same value. */
  lemma Step31InjectiveAcc(a: Int32, b: Int32, v: Int32)
    ensures Step31(a, v) == Step31(b, v) ==> a == b
  {
    if Step31(a, v) == Step31(b, v) {
      var x, y := 31 * a + v, 31 * b + v;
      assert (x - y) % TWO_32 == 0;
      assert x - y == 31 * (a - b);
      Times31Cancels(a - b);
      CongruentEqual(a, b);
    }
  }

  /** One hash step is one-to-one in the folded-in value. */
  lemma Step31InjectiveValue(a: Int32, v: Int32, w: Int32)
    ensures Step31(a, v) == Step31(a, w) ==> v == w
  {
    if Step31(a, v) == Step31(a, w) {
      var x, y := 31 * a + v, 31 * a + w;
      assert (x - y) % TWO_32 == 0;
      CongruentEqual(v, w);
    }
  }

  /** Folding the same suffix into different running hashes keeps them
      different. */
  lemma {:induction false} Fold31KeepsApart(a: Int32, b: Int32, vs: seq<Int32>)
    requires a != b
    ensures Fold31(a, vs) != Fold31(b, vs)
  {
    if |vs| > 0 {
      var init := vs[..|vs| - 1];
      Fold31KeepsApart(a, b, init);
      Step31InjectiveAcc(Fold31(a, init), Fold31(b, init), vs[|vs| - 1]);
    }
  }

  /** Folding splits at any point: the fold of `us + vs` continues the fold
      of `us`. */
  lemma {:induction false} Fold31Append(seed: Int32, us: seq<Int32>, vs: seq<Int32>)
    ensures Fold31(seed, us + vs) == Fold31(Fold31(seed, us), vs)
  {
    if |vs| > 0 {
      var init := vs[..|vs| - 1];
      assert (us + vs)[..|us + vs| - 1] == us + init;
      Fold31Append(seed, us, init);
    } else {
      assert us + vs == us;
    }
  }

  /** Folding two values is two steps. */
  lemma Fold31Pair(seed: Int32, a: Int32, b: Int32)
    ensures Fold31(seed, [a, b]) == Step31(Step31(seed, a), b)
  {
    assert [a, b][..1] == [a];
    assert [a][..0] == [];
    assert Fold31(seed, [a]) == Step31(Fold31(seed, []), a);
  }

  /** Changing exactly one folded-in value changes the fold: the running hash
      is sensitive to every element, not just the last. */
  lemma Fold31Separates(seed: Int32, vs: seq<Int32>, ws: seq<Int32>, k: nat)
    requires |vs| == |ws| && k < |vs|
    requires vs[k] != ws[k]
    requires forall i :: 0 <= i < |vs| && i != k ==> vs[i] == ws[i]
    ensures Fold31(seed, vs) != Fold31(seed, ws)
  {
    assert vs == vs[..k] + [vs[k]] + vs[k + 1..];
    assert ws == ws[..k] + [ws[k]] + ws[k + 1..];
    assert vs[..k] == ws[..k];
    assert vs[k + 1..] == ws[k + 1..];
    var pre := Fold31(seed, vs[..k]);
    Fold31Append(seed, vs[..k] + [vs[k]], vs[k + 1..]);
    Fold31Append(seed, ws[..k] + [ws[k]], ws[k + 1..]);
    Fold31Append(seed, vs[..k], [vs[k]]);
    Fold31Append(seed, ws[..k], [ws[k]]);
    assert Fold31(pre, [vs[k]]) == Step31(pre, vs[k]);
    assert Fold31(pre, [ws[k]]) == Step31(pre, ws[k]);
    Step31InjectiveValue(pre, vs[k], ws[k]);
    Fold31KeepsApart(Step31(pre, vs[k]), Step31(pre, ws[k]), vs[k + 1..]);
  }
}
