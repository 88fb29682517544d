/** The engine's only source of randomness: a 32-bit xorshift generator (src/rng.ts). */
module Random {
  import opened Wrappers

  const TWO_POW_32: int := 0x1_0000_0000

  /** One xorshift32 step on the 32-bit pattern: shifts by 13 left, 17 right, 5 left. */
  function Next(x: bv32): bv32 {
    var a := x ^ (x << 13);
    var b := a ^ (a >> 17);
    b ^ (b << 5)
  }

  // Each xor-with-shift step maps a nonzero pattern to a nonzero one: the lowest
  // (for a left shift) or highest (for a right shift) set bit is left untouched.
  lemma LeftShiftStepNonzero13(x: bv32)
    requires x != 0
    ensures x ^ (x << 13) != 0
  {
  }

  lemma RightShiftStepNonzero17(x: bv32)
    requires x != 0
    ensures x ^ (x >> 17) != 0
  {
  }

  lemma LeftShiftStepNonzero5(x: bv32)
    requires x != 0
    ensures x ^ (x << 5) != 0
  {
  }

  /** A nonzero state never becomes 0, so the generator never gets stuck. */
  lemma NextNonzero(x: bv32)
    requires x != 0
    ensures Next(x) != 0
  {
    var a := x ^ (x << 13);
    LeftShiftStepNonzero13(x);
    var b := a ^ (a >> 17);
    RightShiftStepNonzero17(a);
    LeftShiftStepNonzero5(b);
  }

  /** The state the constructor derives from a seed: `seed >>> 0`, with 0 replaced by 1. */
  function SeedState(seed: int): (s: bv32)
    ensures s != 0
    ensures seed % TWO_POW_32 == 0 ==> s == 1
  {
    var u := seed % TWO_POW_32;
    if u == 0 then 1 else u as bv32
  }

  function Pow2(k: nat): (p: nat)
    decreases k
  {
    if k == 0 then 1 else 2 * Pow2(k - 1)
  }

  lemma Pow2Of32()
    ensures Pow2(32) == TWO_POW_32
  {
    assert Pow2(8) == 256;
    assert Pow2(16) == 65536;
    assert Pow2(24) == 16777216;
  }

  /** The unsigned value of the lowest `k` bits of `s`. */
  function LowBits(s: bv32, k: nat): (u: int)
    decreases k
  {
    if k == 0 then 0 else (if s & 1 == 1 then 1 else 0) + 2 * LowBits(s >> 1, k - 1)
  }

  lemma {:induction false} LowBitsBound(s: bv32, k: nat)
    ensures 0 <= LowBits(s, k) < Pow2(k)
    decreases k
  {
    if k > 0 {
      LowBitsBound(s >> 1, k - 1);
    }
  }

  /** The unsigned integer a 32-bit pattern denotes (what `>>> 0` yields in the source). */
  function Word(s: bv32): (u: int)
    ensures 0 <= u < TWO_POW_32
  {
    LowBitsBound(s, 32);
    Pow2Of32();
    LowBits(s, 32)
  }

  /** `u / 2^32` for a 32-bit unsigned value `u`. */
  function Fraction(u: int): (f: real)
    requires 0 <= u < TWO_POW_32
    ensures 0.0 <= f < 1.0
    ensures f * TWO_POW_32 as real == u as real
  {
    u as real / TWO_POW_32 as real
  }

  /** `Math.floor(f * n)`. */
  function FloorTimes(f: real, n: int): int {
    (f * n as real).Floor
  }

  /** `u * n` by repeated addition, so that reasoning about it stays linear. */
  function Times(u: int, n: nat): (p: int)
    decreases n
  {
    if n == 0 then 0 else u + Times(u, n - 1)
  }

  lemma {:induction false} TimesIsProduct(u: int, n: nat)
    ensures Times(u, n) == u * n
    decreases n
  {
    if n > 0 {
      TimesIsProduct(u, n - 1);
      assert u * n == u + u * (n - 1);
    }
  }

  lemma {:induction false} TimesBelow(u: int, n: nat)
    requires 0 <= u < TWO_POW_32
    ensures 0 <= Times(u, n) && (n > 0 ==> Times(u, n) < n * TWO_POW_32)
    decreases n
  {
    if n > 0 {
      TimesBelow(u, n - 1);
    }
  }

  /** `floor(u * n / 2^32)`: the index `int(n)` derives from the 32-bit value `u`. */
  function Scaled(u: int, n: int): (k: int)
    requires 0 <= u < TWO_POW_32 && n > 0
    ensures 0 <= k < n
  {
    TimesBelow(u, n);
    Times(u, n) / TWO_POW_32
  }

  /** In exact arithmetic, `Math.floor(u / 2^32 * n)` is `Scaled(u, n)`. */
  lemma ScaledIsFloor(u: int, n: int)
    requires 0 <= u < TWO_POW_32 && n > 0
    ensures FloorTimes(Fraction(u), n) == Scaled(u, n)
  {
    TimesIsProduct(u, n);
    var k := Scaled(u, n);
    assert k * TWO_POW_32 <= u * n < (k + 1) * TWO_POW_32;
    var f := Fraction(u);
    var p := f * n as real;
    var c := TWO_POW_32 as real;
    assert p * c == (f * c) * n as real;
    assert (u * n) as real == u as real * n as real;
    assert k as real * c <= p * c < (k + 1) as real * c;
  }

  /** The value `float()` returns after the state has advanced to `s`. */
  function UnitOf(s: bv32): (f: real)
    ensures 0.0 <= f < 1.0
  {
    Fraction(Word(s))
  }

  /** The value `int(n)` returns after the state has advanced to `s`. */
  function BoundedOf(s: bv32, n: int): (k: int)
    requires n > 0
    ensures 0 <= k < n
  {
    Scaled(Word(s), n)
  }

  /** The values `n` successive calls of `nextU32` return, starting from state `s`. */
  function Stream(s: bv32, n: nat): (r: seq<bv32>)
    ensures |r| == n
    decreases n
  {
    if n == 0 then [] else [Next(s)] + Stream(Next(s), n - 1)
  }

  /** The state after `n` calls of `nextU32`. */
  function Advance(s: bv32, n: nat): bv32
    decreases n
  {
    if n == 0 then s else Advance(Next(s), n - 1)
  }

  /** `s` with the elements at `i` and `j` exchanged. */
  function Swap<T>(s: seq<T>, i: int, j: int): (r: seq<T>)
    requires 0 <= i < |s| && 0 <= j < |s|
    ensures |r| == |s|
  {
    s[i := s[j]][j := s[i]]
  }

  lemma SwapPermutes<T>(s: seq<T>, i: int, j: int)
    requires 0 <= i < |s| && 0 <= j < |s|
    ensures multiset(Swap(s, i, j)) == multiset(s)
  {
  }

  /** One more call appends the value computed from the state reached so far. */
  lemma {:induction false} StreamSnoc(s: bv32, n: nat)
    ensures Stream(s, n + 1) == Stream(s, n) + [Next(Advance(s, n))]
    decreases n
  {
    if n > 0 {
      StreamSnoc(Next(s), n - 1);
      assert Stream(s, n + 1) == [Next(s)] + Stream(Next(s), n);
    }
  }

  /** `Advance` one more step is one more `Next`. */
  lemma {:induction false} AdvanceStep(s: bv32, n: nat)
    ensures Advance(s, n + 1) == Next(Advance(s, n))
    decreases n
  {
    if n > 0 {
      AdvanceStep(Next(s), n - 1);
    }
  }

  /**
   * The descending Fisher-Yates loop of `shuffle`, from the point where its counter is `i`
   * and the generator is in state `st`: each turn draws `int(i + 1)` and swaps positions
   * `i` and the drawn index. The result is the final list and the final state.
   */
  function ShuffleFrom<T>(s: seq<T>, i: int, st: bv32): (r: (seq<T>, bv32))
    requires i < |s|
    ensures |r.0| == |s|
    decreases i
  {
    if i <= 0 then (s, st)
    else ShuffleFrom(Swap(s, i, BoundedOf(Next(st), i + 1)), i - 1, Next(st))
  }

  /** Whatever the generator does, shuffling only rearranges the elements. */
  lemma {:induction false} ShufflePermutes<T>(s: seq<T>, i: int, st: bv32)
    requires i < |s|
    ensures multiset(ShuffleFrom(s, i, st).0) == multiset(s)
    decreases i
  {
    if i > 0 {
      var s' := Swap(s, i, BoundedOf(Next(st), i + 1));
      assert ShuffleFrom(s, i, st) == ShuffleFrom(s', i - 1, Next(st));
      ShufflePermutes(s', i - 1, Next(st));
      SwapPermutes(s, i, BoundedOf(Next(st), i + 1));
    }
  }

  /** Shuffling from counter `i` draws exactly `i` numbers, and none when `i <= 0`. */
  lemma {:induction false} ShuffleDraws<T>(s: seq<T>, i: int, st: bv32)
    requires i < |s|
    ensures ShuffleFrom(s, i, st).1 == Advance(st, if i <= 0 then 0 else i)
    decreases i
  {
    if i > 0 {
      var s' := Swap(s, i, BoundedOf(Next(st), i + 1));
      assert ShuffleFrom(s, i, st) == ShuffleFrom(s', i - 1, Next(st));
      ShuffleDraws(s', i - 1, Next(st));
    }
  }

  datatype RngError = NonPositiveBound

  class Rng {
    var state: bv32

    ghost predicate Valid()
      reads this
    {
      state != 0
    }

    constructor (seed: int)
      ensures Valid() && state == SeedState(seed)
    {
      state := SeedState(seed);
    }

    method NextU32() returns (r: bv32)
      requires Valid()
      modifies this
      ensures Valid()
      ensures state == Next(old(state)) && r == state
    {
      NextNonzero(state);
      state := Next(state);
      r := state;
    }

    method Float() returns (f: real)
      requires Valid()
      modifies this
      ensures Valid()
      ensures state == Next(old(state))
      ensures f == UnitOf(state) && 0.0 <= f < 1.0
    {
      var u := NextU32();
      f := Fraction(Word(u));
    }

    /** Fails, drawing nothing, when the bound is not positive. */
    method Int(maxExclusive: int) returns (r: Result<int, RngError>)
      requires Valid()
      modifies this
      ensures Valid()
      ensures maxExclusive <= 0 ==> r == Failure(NonPositiveBound) && state == old(state)
      ensures maxExclusive > 0 ==> state == Next(old(state)) && r == Success(BoundedOf(state, maxExclusive))
      ensures r.Success? ==> 0 <= r.value < maxExclusive
    {
      if maxExclusive <= 0 {
        return Failure(NonPositiveBound);
      }
      var f := Float();
      ScaledIsFloor(Word(state), maxExclusive);
      r := Success(FloorTimes(f, maxExclusive));
    }

    /** `values[int(values.length)]`: an empty list reaches the error of `int(0)`. */
    method Pick<T>(values: seq<T>) returns (r: Result<T, RngError>)
      requires Valid()
      modifies this
      ensures Valid()
      ensures |values| == 0 ==> r == Failure(NonPositiveBound) && state == old(state)
      ensures |values| > 0 ==> state == Next(old(state)) && r == Success(values[BoundedOf(state, |values|)])
      ensures r.Success? ==> r.value in values
    {
      var k := Int(|values|);
      if k.Failure? {
        return Failure(k.error);
      }
      r := Success(values[k.value]);
    }

    /** One turn of the `shuffle` loop: `j = int(i + 1)`, then swap positions `i` and `j`. */
    method ShuffleTurn<T>(a: array<T>, i: int)
      requires Valid() && 0 < i < a.Length
      modifies this, a
      ensures Valid() && state == Next(old(state))
      ensures a[..] == Swap(old(a[..]), i, BoundedOf(state, i + 1))
    {
      var k := Int(i + 1);
      var j := k.value;
      a[i], a[j] := a[j], a[i];
    }

    /** Fisher-Yates in place; returns the same array. */
    method Shuffle<T>(a: array<T>) returns (b: array<T>)
      requires Valid()
      modifies this, a
      ensures Valid()
      ensures b == a
      ensures (a[..], state) == ShuffleFrom(old(a[..]), a.Length - 1, old(state))
      ensures a.Length <= 1 ==> a[..] == old(a[..]) && state == old(state)
    {
      ghost var s0, st0 := a[..], state;
      var i := a.Length - 1;
      while i > 0
        invariant if a.Length == 0 then i == -1 else 0 <= i < a.Length
        invariant Valid()
        invariant ShuffleFrom(a[..], i, state) == ShuffleFrom(s0, a.Length - 1, st0)
        decreases i
      {
        ShuffleTurn(a, i);
        i := i - 1;
      }
      b := a;
    }
  }

  /** Two generators built from the same seed produce the same sequence of values. */
  method SameSeedSameSequence(seed: int, n: nat) returns (xs: seq<bv32>, ys: seq<bv32>)
    ensures xs == ys
    ensures xs == Stream(SeedState(seed), n)
  {
    var a := new Rng(seed);
    var b := new Rng(seed);
    xs, ys := [], [];
    var i := 0;
    while i < n
      invariant 0 <= i <= n
      invariant a.Valid() && b.Valid()
      invariant a.state == b.state == Advance(SeedState(seed), i)
      invariant xs == ys == Stream(SeedState(seed), i)
    {
      StreamSnoc(SeedState(seed), i);
      AdvanceStep(SeedState(seed), i);
      var x := a.NextU32();
      var y := b.NextU32();
      xs, ys := xs + [x], ys + [y];
      i := i + 1;
    }
  }
}
