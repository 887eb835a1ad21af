/** Unsigned 64-bit words as naturals below 2^64, the shifts and the bitwise `or` on them
    as arithmetic, and vectors of words read as one long bitmap: bit `i` of the vector is
    bit `i % 64` of word `i / 64`. */
module BitWords {

  const WORD := 64
  const LIMIT: nat := 0x1_0000_0000_0000_0000

  type u64 = x: nat | x < LIMIT

  function Pow2(n: nat): (p: nat)
    ensures p > 0
  {
    if n == 0 then 1 else 2 * Pow2(n - 1)
  }

  /** `w >> s`: `s` halvings, each dropping the lowest bit. */
  function Shr(w: nat, s: nat): (r: nat)
    ensures r <= w
    decreases s
  {
    if s == 0 then w else Shr(w / 2, s - 1)
  }

  /** `w << s`: `s` doublings, each dropping what overflows 64 bits. */
  function Shl(w: u64, s: nat): (r: u64)
    decreases s
  {
    if s == 0 then w else Shl((2 * w) % LIMIT, s - 1)
  }

  /** `a | b`, digit by digit. */
  function Or(a: nat, b: nat): nat {
    if a == 0 && b == 0 then 0
    else 2 * Or(a / 2, b / 2) + (if a % 2 == 1 || b % 2 == 1 then 1 else 0)
  }

  predicate Bit(w: nat, k: nat) {
    Shr(w, k) % 2 == 1
  }

  /** Bit `i` of a vector of words; positions past the end read as clear. */
  predicate BitAt(words: seq<u64>, i: nat) {
    i / WORD < |words| && Bit(words[i / WORD], i % WORD)
  }

  // How each word operation moves bits.

  lemma {:induction false} ShiftTwice(w: nat, s: nat, k: nat)
    ensures Shr(Shr(w, s), k) == Shr(w, s + k)
    decreases s
  {
    if s > 0 { ShiftTwice(w / 2, s - 1, k); }
  }

  lemma {:induction false} ShiftOut(w: nat, n: nat, k: nat)
    requires w < Pow2(n) && n <= k
    ensures Shr(w, k) == 0
    decreases k
  {
    if k > 0 { ShiftOut(w / 2, if n == 0 then 0 else n - 1, k - 1); }
  }

  lemma Pow2Limit()
    ensures Pow2(WORD) == LIMIT
    ensures Pow2(WORD - 1) == LIMIT / 2
  {
    assert Pow2(8) == 256;
    assert Pow2(16) == 0x1_0000;
    assert Pow2(24) == 0x100_0000;
    assert Pow2(32) == 0x1_0000_0000;
    assert Pow2(40) == 0x100_0000_0000;
    assert Pow2(48) == 0x1_0000_0000_0000;
    assert Pow2(56) == 0x100_0000_0000_0000;
  }

  lemma HighBitsClear(w: u64, k: nat)
    requires WORD <= k
    ensures !Bit(w, k)
  {
    Pow2Limit();
    ShiftOut(w, WORD, k);
  }

  /** Dropping a power of two does not touch the bits below it. */
  lemma {:induction false} LowBitsKept(w: nat, n: nat, k: nat)
    requires k < n && Pow2(n) <= w
    ensures Bit(w - Pow2(n), k) == Bit(w, k)
    decreases k
  {
    var p := Pow2(n - 1);
    assert (w - 2 * p) / 2 == w / 2 - p && (w - 2 * p) % 2 == w % 2;
    if k > 0 { LowBitsKept(w / 2, n - 1, k - 1); }
  }

  lemma DoubleBit(w: u64, j: nat)
    requires j < WORD
    ensures Bit((2 * w) % LIMIT, j) == (j > 0 && Bit(w, j - 1))
  {
    TwiceBit(w, j);
    Overflow(w);
    hide Bit, Pow2;
    if 2 * w >= LIMIT {
      Pow2Limit();
      LowBitsKept(2 * w, WORD, j);
    }
  }

  lemma TwiceBit(w: nat, j: nat)
    ensures Bit(2 * w, j) == (j > 0 && Bit(w, j - 1))
  {
    assert (2 * w) / 2 == w;
  }

  lemma Overflow(w: u64)
    ensures (2 * w) % LIMIT == if 2 * w < LIMIT then 2 * w else 2 * w - LIMIT
  {}

  lemma {:induction false} ShiftLeftBit(w: u64, s: nat, k: nat)
    requires k < WORD
    ensures Bit(Shl(w, s), k) == (s <= k && Bit(w, k - s))
    decreases s
  {
    hide Bit;
    if s > 0 {
      ShiftLeftBit((2 * w) % LIMIT, s - 1, k);
      if s - 1 <= k { DoubleBit(w, k - (s - 1)); }
    }
  }

  lemma {:induction false} OrBit(a: nat, b: nat, k: nat)
    ensures Bit(Or(a, b), k) == (Bit(a, k) || Bit(b, k))
    decreases k
  {
    if a == 0 && b == 0 {
      ShiftOut(0, 0, k);
    } else if k > 0 {
      OrBit(a / 2, b / 2, k - 1);
    }
  }

  lemma {:induction false} OrBound(a: nat, b: nat, n: nat)
    requires a < Pow2(n) && b < Pow2(n)
    ensures Or(a, b) < Pow2(n)
    decreases n
  {
    if n > 0 { OrBound(a / 2, b / 2, n - 1); }
  }

  function Or64(a: u64, b: u64): (r: u64) {
    Pow2Limit();
    OrBound(a, b, WORD);
    Or(a, b)
  }

  lemma SingleBit(s: nat, k: nat)
    requires s < WORD && k < WORD
    ensures Bit(Shl(1, s), k) == (k == s)
  {
    ShiftLeftBit(1, s, k);
    if s < k { ShiftOut(1, 1, k - s); }
  }

  /** What the whole-word pass of an in-place right shift leaves behind. */
  ghost function WordShifted(words: seq<u64>, n: nat): (r: seq<u64>)
    ensures |r| == |words|
  {
    seq(|words|, i requires 0 <= i < |words| => if i + n < |words| then words[i + n] else 0)
  }

  /** What the sub-word pass of an in-place right shift leaves behind. */
  ghost function BitShifted(words: seq<u64>, s: nat): (r: seq<u64>)
    requires 0 < s < WORD
    ensures |r| == |words|
  {
    seq(|words|, i requires 0 <= i < |words| => Funnel(words, i, s))
  }

  function Funnel(words: seq<u64>, i: nat, s: nat): u64
    requires 0 < s < WORD && i < |words|
  {
    if i + 1 < |words| then Or64(Shr(words[i], s), Shl(words[i + 1], WORD - s)) else Shr(words[i], s)
  }

  /** The sub-word pass takes each bit from the same word while it lasts, from the next after. */
  lemma FunnelBit(words: seq<u64>, s: nat, i: nat)
    requires 0 < s < WORD && i < WORD * |words|
    ensures BitAt(BitShifted(words, s), i) == BitAt(words, i + s)
  {
    var j, k := i / WORD, i % WORD;
    assert BitShifted(words, s)[j] == Funnel(words, j, s);
    ShiftTwice(words[j], s, k);
    if k + s < WORD {
      assert (i + s) / WORD == j && (i + s) % WORD == k + s;
    } else {
      assert (i + s) / WORD == j + 1 && (i + s) % WORD == k + s - WORD;
      HighBitsClear(words[j], s + k);
    }
    if j + 1 < |words| {
      ShiftLeftBit(words[j + 1], WORD - s, k);
      OrBit(Shr(words[j], s), Shl(words[j + 1], WORD - s), k);
    }
  }

  lemma WordShiftedBit(words: seq<u64>, n: nat, i: nat)
    requires i < WORD * |words|
    ensures BitAt(WordShifted(words, n), i) == BitAt(words, i + n * WORD)
  {
    ShiftOut(0, 0, i % WORD);
    assert (i + n * WORD) / WORD == i / WORD + n && (i + n * WORD) % WORD == i % WORD;
  }

  /** A whole-word pass followed, when needed, by a sub-word pass moves every bit of the
      map down by `shift` and fills with zeros from above. */
  lemma ShiftedBit(words: seq<u64>, shift: nat, i: nat)
    requires i < WORD * |words|
    ensures var w := WordShifted(words, shift / WORD);
            var r := if shift % WORD > 0 then BitShifted(w, shift % WORD) else w;
            BitAt(r, i) == BitAt(words, i + shift)
  {
    var n, s := shift / WORD, shift % WORD;
    var w := WordShifted(words, n);
    assert shift == n * WORD + s;
    if s > 0 {
      FunnelBit(w, s, i);
      if i + s < WORD * |words| {
        WordShiftedBit(words, n, i + s);
      }
    } else {
      WordShiftedBit(words, n, i);
    }
  }
}
