/**
  History registers and the bit operations the predictor indexes with.

  The C code works on unsigned machine words with `<<`, `|`, `^` and `&`.
  Here a register is a natural number: masking with `(1 << bits) - 1` is
  `% Pow2(bits)`, shifting in a one-bit outcome `(h << 1) | outcome` is
  `h * 2 + outcome`, and `^` is the bitwise `Xor` below.
*/
module History {
  import opened Ints
  import opened SaturatingCounter

  /** `1 << n` for the shift widths the code uses. */
  function Pow2(n: nat): (r: nat)
    ensures r >= 1
  {
    if n == 0 then 1 else 2 * Pow2(n - 1)
  }

  lemma {:induction false} Pow2Add(a: nat, b: nat)
    ensures Pow2(a + b) == Pow2(a) * Pow2(b)
    decreases b
  {
    if b > 0 {
      Pow2Add(a, b - 1);
      assert Pow2(a + b) == 2 * Pow2(a + b - 1);
    }
  }

  lemma Pow2Monotone(a: nat, b: nat)
    requires a <= b
    ensures Pow2(a) <= Pow2(b)
  {
    Pow2Add(a, b - a);
  }

  lemma Pow2Of8()
    ensures Pow2(8) == 0x100
  {
  }

  /** A history of fewer than 31 bits fits, shifted or not, in a 32-bit word. */
  lemma Pow2Below31(n: nat)
    requires n < 31
    ensures Pow2(n) <= 0x4000_0000
  {
    Pow2Of8();
    Pow2Add(8, 8);
    Pow2Add(8, 6);
    Pow2Add(16, 14);
    Pow2Monotone(n, 30);
  }

  // ---------------------------------------------------------------------
  // Euclidean division facts used below.

  lemma MulAtLeast(k: int, p: int)
    requires k >= 1 && p > 0
    ensures k * p >= p
  {
    var j := k - 1;
    assert k * p == j * p + p;
    assert j * p >= 0;
  }

  lemma ModUnique(a: int, p: int, q: int, r: int)
    requires p > 0 && 0 <= r < p && a == q * p + r
    ensures a / p == q && a % p == r
  {
    var q', r' := a / p, a % p;
    assert a == q' * p + r';
    if q' > q {
      assert (q' - q) * p == q' * p - q * p;
      MulAtLeast(q' - q, p);
    } else if q' < q {
      assert (q - q') * p == q * p - q' * p;
      MulAtLeast(q - q', p);
    }
  }

  lemma ModSmall(a: int, p: int)
    requires 0 <= a < p
    ensures a % p == a
  {
    ModUnique(a, p, 0, a);
  }

  lemma ModAddMultiple(a: int, k: int, p: int)
    requires p > 0
    ensures (a + k * p) % p == a % p
  {
    ModUnique(a + k * p, p, a / p + k, a % p);
  }

  /** Splitting off the lowest bit of a value reduced modulo 2 * p. */
  lemma ModDouble(x: nat, p: nat)
    requires p > 0
    ensures x % (2 * p) == 2 * ((x / 2) % p) + x % 2
  {
    var q, r := (x / 2) / p, (x / 2) % p;
    assert x / 2 == q * p + r;
    assert x == q * (2 * p) + (2 * r + x % 2);
    ModUnique(x, 2 * p, q, 2 * r + x % 2);
  }

  // ---------------------------------------------------------------------
  // A history register.

  /**
    `((h << 1) | outcome) & ((1 << bits) - 1)`: the register of width `bits`
    after the newest outcome is shifted in. The outcome becomes bit 0, the
    old bits move up by one and the oldest bit falls off the top.
  */
  function ShiftIn(h: nat, outcome: uint8, bits: nat): (r: nat)
    requires IsOutcome(outcome)
    ensures r < Pow2(bits)
    ensures bits > 0 ==> r % 2 == outcome && r / 2 == h % Pow2(bits - 1)
  {
    ShiftInBits(h, outcome, bits);
    (h * 2 + outcome) % Pow2(bits)
  }

  lemma ShiftInBits(h: nat, outcome: uint8, bits: nat)
    requires IsOutcome(outcome)
    ensures bits > 0 ==>
      var r := (h * 2 + outcome) % Pow2(bits);
      r % 2 == outcome && r / 2 == h % Pow2(bits - 1)
  {
    if bits > 0 {
      var x, p := h * 2 + outcome, Pow2(bits - 1);
      ModUnique(x, 2, h, outcome);
      ModDouble(x, p);
      var m := h % p;
      assert x % (2 * p) == 2 * m + outcome;
      assert Pow2(bits) == 2 * p;
      ModUnique(2 * m + outcome, 2, m, outcome);
    }
  }

  /**
    The C code shifts a machine word, so `h << 1` loses the top bit before
    the mask is applied. For any register narrower than the word that loss
    is invisible: the word-level shift and the unbounded `ShiftIn` agree.
  */
  lemma ShiftInIgnoresWordOverflow(h: nat, outcome: uint8, bits: nat, word: nat)
    requires IsOutcome(outcome) && bits <= word
    ensures ((h * 2) % Pow2(word) + outcome) % Pow2(bits) == ShiftIn(h, outcome, bits)
  {
    var p, q := Pow2(bits), Pow2(word - bits);
    assert Pow2(word) == p * q by {
      Pow2Add(bits, word - bits);
    }
    ModOfMultiple(h * 2, outcome, p, q);
  }

  /** Reducing modulo a multiple of `p` first does not change the result modulo `p`. */
  lemma ModOfMultiple(x: int, o: int, p: int, q: int)
    requires p > 0 && q > 0
    ensures (x % (p * q) + o) % p == (x + o) % p
  {
    var k, m := x / (p * q), x % (p * q);
    assert x == k * (p * q) + m;
    assert k * (p * q) == (k * q) * p;
    ModAddMultiple(m + o, k * q, p);
  }

  /**
    The bits of `h` followed by the outcomes `os`, the newest in bit 0: the
    register after shifting in `os` if no bit were ever masked away.
  */
  function Unmasked(h: nat, os: seq<uint8>): nat
    requires AllOutcomes(os)
  {
    if os == [] then h else 2 * Unmasked(h, os[..|os| - 1]) + os[|os| - 1]
  }

  /** The value of a sequence of outcomes read as bits, the newest in bit 0. */
  function HistoryValue(os: seq<uint8>): nat
    requires AllOutcomes(os)
  {
    Unmasked(0, os)
  }

  /** The register after shifting in each outcome of `os` in turn (oldest first). */
  function ShiftAll(h: nat, os: seq<uint8>, bits: nat): nat
    requires AllOutcomes(os)
  {
    if os == [] then h else ShiftIn(ShiftAll(h, os[..|os| - 1], bits), os[|os| - 1], bits)
  }

  lemma {:induction false} HistoryValueBound(os: seq<uint8>)
    requires AllOutcomes(os)
    ensures HistoryValue(os) < Pow2(|os|)
  {
    if os != [] {
      HistoryValueBound(os[..|os| - 1]);
    }
  }

  /** Shifting in `pre` and then `suf` is shifting in `pre + suf`. */
  lemma {:induction false} UnmaskedAppend(h: nat, pre: seq<uint8>, suf: seq<uint8>)
    requires AllOutcomes(pre) && AllOutcomes(suf)
    ensures AllOutcomes(pre + suf)
    ensures Unmasked(h, pre + suf) == Unmasked(Unmasked(h, pre), suf)
    decreases |suf|
  {
    if suf == [] {
      assert pre + suf == pre;
    } else {
      var s, suf' := pre + suf, suf[..|suf| - 1];
      assert s[..|s| - 1] == pre + suf';
      assert s[|s| - 1] == suf[|suf| - 1];
      UnmaskedAppend(h, pre, suf');
    }
  }

  /** The old bits end up `|os|` places up, above the outcomes. */
  lemma {:induction false} UnmaskedValue(h: nat, os: seq<uint8>)
    requires AllOutcomes(os)
    ensures Unmasked(h, os) == h * Pow2(|os|) + HistoryValue(os)
    decreases |os|
  {
    if os != [] {
      var pre, o := os[..|os| - 1], os[|os| - 1];
      UnmaskedValue(h, pre);
      assert HistoryValue(os) == 2 * HistoryValue(pre) + o;
      var v, a := HistoryValue(pre), Pow2(|pre|);
      assert 2 * (h * a + v) + o == h * (2 * a) + (2 * v + o);
    }
  }

  lemma ModShift(x: int, o: int, p: int)
    requires p > 0
    ensures ((x % p) * 2 + o) % p == (x * 2 + o) % p
  {
    var q, m := x / p, x % p;
    assert x * 2 + o == (m * 2 + o) + (2 * q) * p;
    ModAddMultiple(m * 2 + o, 2 * q, p);
  }

  /**
    A register of width `bits` starting from `h` holds, after the outcomes
    `os`, the low `bits` bits of `h` followed by `os`.
  */
  lemma {:induction false} ShiftAllValue(h: nat, os: seq<uint8>, bits: nat)
    requires AllOutcomes(os) && h < Pow2(bits)
    ensures ShiftAll(h, os, bits) == Unmasked(h, os) % Pow2(bits)
    decreases |os|
  {
    var p := Pow2(bits);
    if os == [] {
      ModSmall(h, p);
    } else {
      var pre, o := os[..|os| - 1], os[|os| - 1];
      ShiftAllValue(h, pre, bits);
      var x, y := Unmasked(h, pre), ShiftAll(h, pre, bits);
      assert y == x % p;
      assert ShiftAll(h, os, bits) == ShiftIn(y, o, bits);
      assert ShiftIn(y, o, bits) == (y * 2 + o) % p;
      ModShift(x, o, p);
    }
  }

  /**
    A register of width `bits` holds exactly the last `bits` outcomes shifted
    into it, whatever it held before.
  */
  lemma HistoryIsLastOutcomes(h: nat, os: seq<uint8>, bits: nat)
    requires AllOutcomes(os) && h < Pow2(bits) && |os| >= bits
    ensures ShiftAll(h, os, bits) == HistoryValue(os[|os| - bits..])
  {
    var pre, suf := os[..|os| - bits], os[|os| - bits..];
    assert os == pre + suf;
    ShiftAllValue(h, os, bits);
    UnmaskedAppend(h, pre, suf);
    var x := Unmasked(h, pre);
    assert Unmasked(h, os) == Unmasked(x, suf);
    UnmaskedValue(x, suf);
    assert |suf| == bits;
    HistoryValueBound(suf);
    ModTopBits(x, HistoryValue(suf), Pow2(bits));
  }

  /** Bits shifted above the low `p` places vanish modulo `p`. */
  lemma ModTopBits(x: nat, u: nat, p: nat)
    requires u < p
    ensures (x * p + u) % p == u
  {
    ModAddMultiple(u, x, p);
    ModSmall(u, p);
  }

  // ---------------------------------------------------------------------
  // Bitwise exclusive or, as Gshare combines the address with the history.

  function Xor(a: nat, b: nat): nat
    decreases a + b
  {
    if a == 0 then b
    else if b == 0 then a
    else 2 * Xor(a / 2, b / 2) + (if a % 2 == b % 2 then 0 else 1)
  }

  lemma XorStep(a: nat, b: nat)
    ensures Xor(a, b) == 2 * Xor(a / 2, b / 2) + (if a % 2 == b % 2 then 0 else 1)
  {
    if a == 0 {
      assert Xor(a / 2, b / 2) == b / 2;
    } else if b == 0 {
      if a / 2 != 0 {
        assert Xor(a / 2, b / 2) == a / 2;
      }
    }
  }

  /**
    The low `k` bits of `a ^ b` depend only on the low `k` bits of `a` and
    of `b`.
  */
  lemma {:induction false} XorLowBits(a: nat, b: nat, k: nat)
    ensures Xor(a, b) % Pow2(k) == Xor(a % Pow2(k), b % Pow2(k))
    decreases k
  {
    if k == 0 {
      assert a % 1 == 0 && b % 1 == 0;
    } else {
      var p := Pow2(k - 1);
      var bit := if a % 2 == b % 2 then 0 else 1;
      var am, bm := a % (2 * p), b % (2 * p);
      XorStep(a, b);
      ModDouble(Xor(a, b), p);
      assert Xor(a, b) / 2 == Xor(a / 2, b / 2);
      assert Xor(a, b) % 2 == bit;
      ModDouble(a, p);
      ModDouble(b, p);
      assert am / 2 == (a / 2) % p && am % 2 == a % 2;
      assert bm / 2 == (b / 2) % p && bm % 2 == b % 2;
      XorStep(am, bm);
      XorLowBits(a / 2, b / 2, k - 1);
    }
  }

  /** Exclusive or with the same value twice gives back the original. */
  lemma {:induction false} XorCancel(a: nat, b: nat)
    ensures Xor(a, Xor(a, b)) == b
    decreases a + b
  {
    if a != 0 {
      var c := Xor(a, b);
      XorStep(a, b);
      XorStep(a, c);
      assert c / 2 == Xor(a / 2, b / 2);
      assert c % 2 == (if a % 2 == b % 2 then 0 else 1);
      XorCancel(a / 2, b / 2);
    }
  }

  /** For a fixed first operand, exclusive or is one-to-one in the second. */
  lemma XorInjective(a: nat, b1: nat, b2: nat)
    requires Xor(a, b1) == Xor(a, b2)
    ensures b1 == b2
  {
    XorCancel(a, b1);
    XorCancel(a, b2);
  }
}
