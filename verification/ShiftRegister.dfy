/**
 Shift registers over an arbitrary register type: iterating a shift, and reading
 or absorbing the bits of a word lowest first. The laws a lemma needs of the
 register operations are its preconditions.
 */
module ShiftRegister {
  import opened Folds

  function Iterate<T>(f: T -> T, x: T, n: nat): T
    decreases n
  {
    if n == 0 then x else Iterate(f, f(x), n - 1)
  }

  /** Steps through given values. */
  lemma {:induction false} IterateAlong<T>(f: T -> T, xs: seq<T>, i: nat, n: nat)
    requires i + n < |xs| && forall k | 0 <= k < |xs| - 1 :: f(xs[k]) == xs[k + 1]
    ensures Iterate(f, xs[i], n) == xs[i + n]
    decreases n
  {
    if n > 0 {
      IterateAlong(f, xs, i + 1, n - 1);
    }
  }

  lemma {:induction false} IterateAdd<T>(f: T -> T, x: T, m: nat, n: nat)
    ensures Iterate(f, x, m + n) == Iterate(f, Iterate(f, x, m), n)
    decreases m
  {
    if m > 0 {
      IterateAdd(f, f(x), m - 1, n);
    }
  }

  lemma {:induction false} IterateInjective<T(!new)>(f: T -> T, x: T, y: T, n: nat)
    requires forall a, b :: f(a) == f(b) ==> a == b
    requires Iterate(f, x, n) == Iterate(f, y, n)
    ensures x == y
    decreases n
  {
    if n > 0 {
      IterateInjective(f, f(x), f(y), n - 1);
    }
  }

  lemma {:induction false} IterateLinear<T(!new)>(f: T -> T, op: (T, T) -> T, x: T, y: T, n: nat)
    requires forall a, b :: f(op(a, b)) == op(f(a), f(b))
    ensures Iterate(f, op(x, y), n) == op(Iterate(f, x, n), Iterate(f, y, n))
    decreases n
  {
    if n > 0 {
      IterateLinear(f, op, f(x), f(y), n - 1);
    }
  }

  lemma {:induction false} IterateMonotone<T(!new)>(f: T -> T, below: (T, T) -> bool, x: T, y: T, n: nat)
    requires forall a, b | below(a, b) :: below(f(a), f(b))
    requires below(x, y)
    ensures below(Iterate(f, x, n), Iterate(f, y, n))
    decreases n
  {
    if n > 0 {
      IterateMonotone(f, below, f(x), f(y), n - 1);
    }
  }

  /** The n lowest bits of w, lowest first. */
  function LowBits<T>(odd: T -> bool, half: T -> T, w: T, n: nat): (s: seq<bool>)
    ensures |s| == n
    decreases n
  {
    if n == 0 then [] else [odd(w)] + LowBits(odd, half, half(w), n - 1)
  }

  /** While only zeros leave the register, shifting is halving. */
  lemma {:induction false} ShiftZeros<T(!new)>(shift: T -> T, odd: T -> bool, half: T -> T, w: T, n: nat)
    requires forall x :: !odd(x) ==> shift(x) == half(x)
    requires LowBits(odd, half, w, n) == seq(n, _ => false)
    ensures Iterate(shift, w, n) == Iterate(half, w, n)
    decreases n
  {
    if n > 0 {
      assert !odd(w) by {
        assert LowBits(odd, half, w, n)[0] == odd(w);
      }
      assert LowBits(odd, half, half(w), n - 1) == LowBits(odd, half, w, n)[1..];
      ShiftZeros(shift, odd, half, half(w), n - 1);
    }
  }

  /** Absorbing the bits of w one per shift equals mixing in w at once and then shifting. */
  lemma {:induction false} SerialIsParallel<T(!new)>(
    shift: T -> T, shiftIn: (T, bool) -> T, xor: (T, T) -> T, odd: T -> bool, half: T -> T, zero: T, c: T, w: T, n: nat)
    requires forall s, x :: shift(xor(s, x)) == xor(shiftIn(s, odd(x)), half(x))
    requires forall s :: xor(s, zero) == s
    requires Iterate(half, w, n) == zero
    ensures Fold(shiftIn, c, LowBits(odd, half, w, n)) == Iterate(shift, xor(c, w), n)
    decreases n
  {
    if n > 0 {
      SerialIsParallel(shift, shiftIn, xor, odd, half, zero, shiftIn(c, odd(w)), half(w), n - 1);
      assert LowBits(odd, half, w, n)[1..] == LowBits(odd, half, half(w), n - 1);
    }
  }

  /** The word with the given bits, lowest first. */
  function Pack<T>(cons: (bool, T) -> T, zero: T, bits: seq<bool>): T {
    if bits == [] then zero else cons(bits[0], Pack(cons, zero, bits[1..]))
  }

  /** A word of at most `width` bits fits, and reading it back gives the bits. */
  lemma {:induction false} LowBitsOfPack<T(!new)>(
    cons: (bool, T) -> T, odd: T -> bool, half: T -> T, zero: T, width: nat, bits: seq<bool>)
    requires forall b, x, k: nat | k < width && Iterate(half, x, k) == zero ::
               half(cons(b, x)) == x && odd(cons(b, x)) == b
    requires |bits| <= width
    ensures Iterate(half, Pack(cons, zero, bits), |bits|) == zero
    ensures LowBits(odd, half, Pack(cons, zero, bits), |bits|) == bits
  {
    if bits != [] {
      LowBitsOfPack(cons, odd, half, zero, width, bits[1..]);
    }
  }
}
