/** The padding computed with machine words. */
module Padding {
  import opened Bytes
  import opened Layouts

  const WORD: nat := 64

  /** Bitwise `and` on the low `w` bits. */
  function And(x: nat, y: nat, w: nat): nat {
    if w == 0 then 0 else (x % 2) * (y % 2) + 2 * And(x / 2, y / 2, w - 1)
  }

  function Not(x: nat): nat
    requires x < Pow2(WORD)
  {
    Pow2(WORD) - 1 - x
  }

  function WrappingAdd(x: nat, y: nat): nat {
    (x + y) % Pow2(WORD)
  }

  function WrappingSub(x: nat, y: nat): nat
    requires y <= Pow2(WORD)
  {
    (x + (Pow2(WORD) - y)) % Pow2(WORD)
  }

  /** The padding after `len` bytes that aligns what follows: rounded up with a mask, then the
      difference, all modulo the word. */
  function PaddingNeededFor(len: nat, align: nat): nat
    requires len < Pow2(WORD) && 0 < align < Pow2(WORD)
  {
    var rounded := And(WrappingSub(WrappingAdd(len, align), 1), Not(WrappingSub(align, 1)), WORD);
    WrappingSub(if rounded < Pow2(WORD) then rounded else 0, len)
  }

  lemma Halves(w: nat)
    requires w > 0
    ensures (Pow2(w) - 1) / 2 == Pow2(w - 1) - 1 && (Pow2(w) - 1) % 2 == 1
    ensures Pow2(w) / 2 == Pow2(w - 1) && Pow2(w) % 2 == 0
  {
    var p := Pow2(w - 1);
    assert Pow2(w) == 2 * p;
    hide Pow2;
  }

  lemma {:induction false} AndAllOnes(x: nat, w: nat)
    requires x < Pow2(w)
    ensures And(x, Pow2(w) - 1, w) == x
  {
    if w > 0 {
      AndAllOnes(x / 2, w - 1);
      Halves(w);
      assert And(x, Pow2(w) - 1, w) == x % 2 * 1 + 2 * And(x / 2, Pow2(w - 1) - 1, w - 1);
    }
  }

  lemma AndStep(x: nat, y: nat, w: nat)
    requires w > 0 && y % 2 == 0
    ensures And(x, y, w) == 2 * And(x / 2, y / 2, w - 1)
  {
  }

  lemma Swap(q: nat, p: nat)
    ensures 2 * (q * p) == q * (2 * p)
  {
  }

  /** Masking off the `k` low bits rounds down to a multiple of `2^k`. */
  lemma {:induction false} AndHighMask(x: nat, k: nat, w: nat)
    requires k <= w && x < Pow2(w)
    ensures Pow2(k) <= Pow2(w)
    ensures And(x, Pow2(w) - Pow2(k), w) == x / Pow2(k) * Pow2(k)
  {
    hide And;
    Pow2Monotone(k, w);
    if k == 0 {
      AndAllOnes(x, w);
    } else {
      HalfBelow(x, w);
      AndHighMask(x / 2, k - 1, w - 1);
      var a, b := Pow2(w - 1), Pow2(k - 1);
      assert Pow2(w) == 2 * a && Pow2(k) == 2 * b;
      hide Pow2;
      HighMaskStep(x, a, b, w);
    }
  }

  lemma HighMaskStep(x: nat, a: nat, b: nat, w: nat)
    requires 0 < b <= a && w > 0 && And(x / 2, a - b, w - 1) == x / 2 / b * b
    ensures And(x, 2 * a - 2 * b, w) == x / (2 * b) * (2 * b)
  {
    hide And;
    var y: nat := 2 * a - 2 * b;
    QuotientIs(y, 2, a - b, 0);
    AndStep(x, y, w);
    DivDiv(x, 2, b);
    Swap(x / (2 * b), b);
  }

  lemma HalfBelow(x: nat, w: nat)
    requires w > 0 && x < Pow2(w)
    ensures x / 2 < Pow2(w - 1)
  {
  }

  /** Where rounding up stays below the word. */
  lemma PaddingFits(len: nat, k: nat)
    requires k < WORD && len + Pow2(k) - 1 < Pow2(WORD)
    ensures Pow2(k) < Pow2(WORD)
    ensures PaddingNeededFor(len, Pow2(k)) == AlignUp(len, Pow2(k)) - len
  {
    hide Pow2, And, AlignUp;
    var align, word := Pow2(k), Pow2(WORD);
    Pow2Below(k);
    Sums(len, align, word);
    AndHighMask(len + align - 1, k, WORD);
    var up := AlignUp(len, align);
    assert up <= len + align - 1 < word;
    DifferenceFits(up, len, word);
    AlignUpIs(len, align);
  }

  lemma AlignUpIs(n: nat, a: nat)
    requires a > 0
    ensures AlignUp(n, a) == (n + a - 1) / a * a
  {
    hide AlignUp;
    var up := AlignUp(n, a);
    QuotientIs(n + a - 1, a, up / a, n + a - 1 - up);
  }

  lemma Pow2Below(k: nat)
    requires k < WORD
    ensures Pow2(k) < Pow2(WORD)
  {
    Pow2Monotone(k + 1, WORD);
  }

  lemma Sums(len: nat, align: nat, word: nat)
    requires word == Pow2(WORD) && 0 < align < word && len + align - 1 < word
    ensures WrappingSub(WrappingAdd(len, align), 1) == len + align - 1
    ensures Not(WrappingSub(align, 1)) == word - align
  {
    hide Pow2;
    ModuloTwice(len + align, word);
    MinusOne(align, word);
    assert Not(WrappingSub(align, 1)) == word - 1 - (align - 1);
  }

  lemma MinusOne(n: nat, word: nat)
    requires 0 < n < word
    ensures (n + (word - 1)) % word == n - 1
  {
    QuotientIs(n + (word - 1), word, 1, n - 1);
  }

  /** One less than a sum that was reduced. */
  lemma ModuloTwice(sum: nat, word: nat)
    requires 0 < sum <= word
    ensures (sum % word + (word - 1)) % word == sum - 1
  {
    if sum == word {
      QuotientIs(word, word, 1, 0);
      QuotientIs(word - 1, word, 0, word - 1);
    } else {
      QuotientIs(sum, word, 0, sum);
      MinusOne(sum, word);
    }
  }

  lemma DifferenceFits(up: nat, len: nat, word: nat)
    requires word == Pow2(WORD) && len <= up < word
    ensures WrappingSub(up, len) == up - len
  {
    hide Pow2;
    QuotientIs(up + (word - len), word, 1, up - len);
  }

  /** Where rounding up passes the word, the padding brings the length to `2^64`, which is the next multiple. */
  lemma PaddingOverflows(len: nat, k: nat)
    requires k < WORD && len < Pow2(WORD) <= len + Pow2(k) - 1
    ensures Pow2(k) < Pow2(WORD)
    ensures len + PaddingNeededFor(len, Pow2(k)) == Pow2(WORD)
  {
    hide Pow2, And;
    var align, word := Pow2(k), Pow2(WORD);
    Pow2Below(k);
    var low := len + align - 1 - word;
    Overflows(len, align, word);
    AndHighMask(low, k, WORD);
    QuotientIs(low, align, 0, low);
    NegatedLength(len, word);
  }

  lemma NegatedLength(len: nat, word: nat)
    requires word == Pow2(WORD) && 0 < len < word
    ensures WrappingSub(0, len) == word - len
  {
    hide Pow2;
    QuotientIs(word - len, word, 0, word - len);
  }

  lemma Overflows(len: nat, align: nat, word: nat)
    requires word == Pow2(WORD) && 0 < align < word && len < word <= len + align - 1
    ensures WrappingSub(WrappingAdd(len, align), 1) == len + align - 1 - word
    ensures Not(WrappingSub(align, 1)) == word - align
  {
    hide Pow2;
    QuotientIs(len + align, word, 1, len + align - word);
    if len + align - word == 0 {
    } else {
      QuotientIs(len + align - word + (word - 1), word, 1, len + align - 1 - word);
    }
    QuotientIs(align + (word - 1), word, 1, align - 1);
  }

  lemma NextIsWord(len: nat, k: nat)
    requires k < WORD && len < Pow2(WORD) <= len + Pow2(k) - 1
    ensures AlignUp(len, Pow2(k)) == Pow2(WORD)
  {
    hide Pow2, AlignUp, Multiple;
    WordIsMultiple(k);
    AlignUpLeast(len, Pow2(k), Pow2(WORD));
    if AlignUp(len, Pow2(k)) < Pow2(WORD) {
      SameMultiple(Pow2(WORD), AlignUp(len, Pow2(k)), Pow2(k));
    }
  }

  lemma WordIsMultiple(k: nat)
    requires k < WORD
    ensures Multiple(Pow2(WORD), Pow2(k))
  {
    hide Pow2;
    var p, q := Pow2(k), Pow2(WORD - k);
    assert Pow2(WORD) == p * q by { Pow2Add(k, WORD - k); }
    ProductIsMultiple(p, q);
  }

  lemma ProductIsMultiple(p: nat, q: nat)
    requires p > 0
    ensures Multiple(p * q, p)
  {
    assert p * q == q * p;
    QuotientIs(p * q, p, q, 0);
  }

  /** For every length and alignment the masked formula, although it wraps around, gives the padding up to the
      next multiple of the alignment. */
  lemma PaddingIsLeast(len: nat, k: nat)
    requires k < WORD && len < Pow2(WORD)
    ensures Pow2(k) < Pow2(WORD)
    ensures PaddingNeededFor(len, Pow2(k)) == AlignUp(len, Pow2(k)) - len
  {
    hide Pow2, And, AlignUp, PaddingNeededFor;
    if len + Pow2(k) - 1 < Pow2(WORD) {
      PaddingFits(len, k);
    } else {
      PaddingOverflows(len, k);
      NextIsWord(len, k);
    }
  }

  /** The padded length is aligned, and no smaller padding aligns. */
  lemma PaddingMinimal(len: nat, k: nat, p: nat)
    requires k < WORD && len < Pow2(WORD)
    ensures Pow2(k) < Pow2(WORD)
    ensures Multiple(len + PaddingNeededFor(len, Pow2(k)), Pow2(k))
    ensures Multiple(len + p, Pow2(k)) ==> PaddingNeededFor(len, Pow2(k)) <= p
  {
    hide Pow2, PaddingNeededFor, AlignUp, Multiple;
    PaddingIsLeast(len, k);
    if Multiple(len + p, Pow2(k)) {
      AlignUpLeast(len, Pow2(k), len + p);
    }
  }
}
