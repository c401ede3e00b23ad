/** The seeded generator `mulberry32`: a 32-bit unsigned state advanced by a fixed
    odd increment on every call and scrambled into an output in [0, 1). The state
    is the JavaScript number `s`, always an integer in [0, 2^32) because every
    assignment to it ends in `>>> 0`. The scrambler's `Math.imul`, `^`, `|` and
    `>>>` act on the 32-bit two's-complement pattern of their operands; since
    every one of them depends only on its operands modulo 2^32, each intermediate
    value is kept here as the unsigned word with the same pattern (the `+` inside
    the scrambler is cut back to 32 bits by the `^` that follows). */
module Prng {

  const INCREMENT := 0x6D2B79F5
  const TWO_POW_32 := 0x1_0000_0000

  /** An unsigned 32-bit integer held in a JavaScript number. */
  type Word = x: int | 0 <= x < TWO_POW_32

  /** `x >>> 0` for an integer `x`: its residue modulo 2^32. */
  function ToUint32(x: int): (r: Word)
    ensures r == x % TWO_POW_32
    ensures 0 <= x < TWO_POW_32 ==> r == x
  {
    x % TWO_POW_32
  }

  /** `s = (s + 0x6D2B79F5) >>> 0`. */
  function Advance(s: Word): Word
  {
    ToUint32(s + INCREMENT)
  }

  function Pow2(k: nat): (p: nat)
    ensures p >= 1
  {
    if k == 0 then 1 else 2 * Pow2(k - 1)
  }

  lemma {:induction false} Pow2Add(a: nat, b: nat)
    ensures Pow2(a + b) == Pow2(a) * Pow2(b)
  {
    if a > 0 {
      Pow2Add(a - 1, b);
    }
  }

  lemma Pow2Word()
    ensures Pow2(32) == TWO_POW_32
  {
    assert Pow2(8) == 256;
    Pow2Add(8, 8);
    Pow2Add(16, 16);
  }

  /** The two bitwise operators the scrambler uses. */
  datatype BitOp = Xor | Or

  /** The low `k` bits of `op` applied bit by bit to `a` and `b`. */
  function Bitwise(op: BitOp, a: nat, b: nat, k: nat): nat
  {
    if k == 0 then 0
    else
      var x := a % 2;
      var y := b % 2;
      var bit := match op
        case Xor => (if x != y then 1 else 0)
        case Or => (if x == 1 || y == 1 then 1 else 0);
      2 * Bitwise(op, a / 2, b / 2, k - 1) + bit
  }

  lemma {:induction false} BitwiseBound(op: BitOp, a: nat, b: nat, k: nat)
    ensures Bitwise(op, a, b, k) < Pow2(k)
  {
    if k > 0 {
      BitwiseBound(op, a / 2, b / 2, k - 1);
    }
  }

  /** `a ^ b` on 32-bit patterns, read back as unsigned. */
  function Xor32(a: Word, b: Word): Word
  {
    BitwiseBound(Xor, a, b, 32);
    Pow2Word();
    Bitwise(Xor, a, b, 32)
  }

  /** `a | b` on 32-bit patterns, read back as unsigned. */
  function Or32(a: Word, b: Word): Word
  {
    BitwiseBound(Or, a, b, 32);
    Pow2Word();
    Bitwise(Or, a, b, 32)
  }

  /** The low 32 bits of `a` times the low `k` bits of `b`, added up bit by bit
      from the most significant of those bits down. */
  function MulLow(a: Word, b: nat, k: nat): Word
  {
    if k == 0 then 0
    else ToUint32(2 * MulLow(a, b / 2, k - 1) + (if b % 2 == 1 then a else 0))
  }

  /** `Math.imul(a, b)`. */
  function Imul(a: Word, b: Word): Word
  {
    MulLow(a, b, 32)
  }

  lemma ModUnique(x: int, n: int, d: int, rem: int)
    requires n > 0 && x == n * d + rem && 0 <= rem < n
    ensures x % n == rem
  {
    var q := x / n;
    var r := x % n;
    assert x == n * q + r;
    assert n * (q - d) == rem - r;
    if q - d >= 1 {
      MulAtLeast(n, q - d);
    } else if q - d <= -1 {
      MulAtLeast(n, d - q);
    }
  }

  lemma {:induction false} MulAtLeast(n: int, c: int)
    requires n > 0 && c >= 1
    ensures n * c >= n
    decreases c
  {
    if c > 1 {
      MulAtLeast(n, c - 1);
      assert n * c == n * (c - 1) + n;
    }
  }

  lemma LowBits(b: nat, k: nat)
    requires k >= 1
    ensures b % Pow2(k) == 2 * ((b / 2) % Pow2(k - 1)) + b % 2
  {
    var p := Pow2(k - 1);
    var m := (b / 2) % p;
    var d := (b / 2) / p;
    assert b / 2 == p * d + m;
    assert b == 2 * (b / 2) + b % 2;
    assert b == (2 * p) * d + (2 * m + b % 2);
    ModUnique(b, 2 * p, d, 2 * m + b % 2);
  }

  lemma ModDoubleAdd(x: int, y: int)
    ensures (2 * (x % TWO_POW_32) + y) % TWO_POW_32 == (2 * x + y) % TWO_POW_32
  {
    var d := x / TWO_POW_32;
    assert x == TWO_POW_32 * d + x % TWO_POW_32;
    assert 2 * x + y == TWO_POW_32 * (2 * d) + (2 * (x % TWO_POW_32) + y);
    var z := 2 * (x % TWO_POW_32) + y;
    var e := z / TWO_POW_32;
    assert z == TWO_POW_32 * e + z % TWO_POW_32;
    ModUnique(2 * x + y, TWO_POW_32, 2 * d + e, z % TWO_POW_32);
  }

  lemma {:induction false} MulLowSpec(a: Word, b: nat, k: nat)
    ensures MulLow(a, b, k) == (a * (b % Pow2(k))) % TWO_POW_32
  {
    if k > 0 {
      var m := (b / 2) % Pow2(k - 1);
      var bit := if b % 2 == 1 then a else 0;
      var low := b % Pow2(k);
      assert MulLow(a, b, k) == (2 * ((a * m) % TWO_POW_32) + bit) % TWO_POW_32 by {
        MulLowSpec(a, b / 2, k - 1);
      }
      assert (2 * ((a * m) % TWO_POW_32) + bit) % TWO_POW_32 == (2 * (a * m) + bit) % TWO_POW_32 by {
        ModDoubleAdd(a * m, bit);
      }
      assert a * low == 2 * (a * m) + bit by {
        LowBits(b, k);
        ProductSplit(a, m, b % 2);
      }
    }
  }

  lemma ProductSplit(a: int, m: int, r: int)
    requires r == 0 || r == 1
    ensures a * (2 * m + r) == 2 * (a * m) + (if r == 1 then a else 0)
  {
  }

  /** `Math.imul` is the product reduced modulo 2^32. */
  lemma ImulSpec(a: Word, b: Word)
    ensures Imul(a, b) == (a * b) % TWO_POW_32
  {
    MulLowSpec(a, b, 32);
    WordBelowPow2(b);
  }

  lemma WordBelowPow2(b: Word)
    ensures b % Pow2(32) == b
  {
    Pow2Word();
  }

  /** The output word computed from the freshly advanced state; the shifts
      `>>> 15`, `>>> 7` and `>>> 14` of an unsigned word are divisions by
      2^15, 2^7 and 2^14. */
  function Scramble(s: Word): Word
  {
    var t := Imul(Xor32(s, s / 0x8000), Or32(1, s));
    var u := Xor32(ToUint32(t + Imul(Xor32(t, t / 0x80), Or32(61, t))), t);
    Xor32(u, u / 0x4000)
  }

  /** The value a call returns when the advanced state is `s`: the output word over 2^32. */
  function Output(s: Word): (r: real)
    ensures 0.0 <= r < 1.0
  {
    Scramble(s) as real / TWO_POW_32 as real
  }

  /** The state after `k` calls. */
  function StateAfter(seed: Word, k: nat): Word
  {
    if k == 0 then seed else Advance(StateAfter(seed, k - 1))
  }

  /** The first `k` values of the generator seeded with `seed`. */
  function Draws(seed: Word, k: nat): (r: seq<real>)
    ensures |r| == k
    ensures forall i :: 0 <= i < k ==> 0.0 <= r[i] < 1.0
  {
    if k == 0 then [] else Draws(seed, k - 1) + [Output(StateAfter(seed, k))]
  }

  /** Value number `j + 1` of the generator is computed from the state after `j + 1` calls. */
  lemma {:induction false} DrawsAt(seed: Word, k: nat, j: nat)
    requires j < k
    ensures Draws(seed, k)[j] == Output(StateAfter(seed, j + 1))
  {
    if j < k - 1 {
      DrawsAt(seed, k - 1, j);
    }
  }

  /** Each call adds the increment modulo 2^32: after `k` calls the state is
      `seed + k * 0x6D2B79F5` reduced modulo 2^32. */
  lemma {:induction false} StateAfterClosedForm(seed: Word, k: nat)
    ensures StateAfter(seed, k) == (seed + k * INCREMENT) % TWO_POW_32
  {
    if k > 0 {
      var before := seed + (k - 1) * INCREMENT;
      assert StateAfter(seed, k - 1) == before % TWO_POW_32 by {
        StateAfterClosedForm(seed, k - 1);
      }
      ModAddStep(before, INCREMENT);
      assert before + INCREMENT == seed + k * INCREMENT;
    }
  }

  lemma ModAddStep(a: int, b: int)
    ensures (a % TWO_POW_32 + b) % TWO_POW_32 == (a + b) % TWO_POW_32
  {
  }

  /** The closure that `mulberry32(seed)` returns, with its captured state `s`. */
  class Mulberry32 {
    var s: Word

    constructor (seed: int)
      ensures s == ToUint32(seed)
    {
      s := ToUint32(seed);
    }

    /** One call of the closure. */
    method Next() returns (r: real)
      modifies this
      ensures s == Advance(old(s))
      ensures r == Output(s)
    {
      s := (s + INCREMENT) % TWO_POW_32;
      r := Scramble(s) as real / TWO_POW_32 as real;
    }
  }
}
