/** Bytes as rows of eight vertical pixels, and byte buffers as pages of such columns. */
module Bits {

  datatype Option<+T> = None | Some(value: T)

  /** The values of a `uint8_t`, and truncation to them. */
  type Octet = v: int | 0 <= v < 0x100

  function U8(v: int): Octet {
    v % 0x100
  }

  /** Bit `k` of a byte, least significant first; false outside 0..7. */
  function Bit(b: bv8, k: int): bool {
    if k == 0 then b & 0x01 != 0
    else if k == 1 then b & 0x02 != 0
    else if k == 2 then b & 0x04 != 0
    else if k == 3 then b & 0x08 != 0
    else if k == 4 then b & 0x10 != 0
    else if k == 5 then b & 0x20 != 0
    else if k == 6 then b & 0x40 != 0
    else k == 7 && b & 0x80 != 0
  }

  lemma BitOr(a: bv8, b: bv8, k: int)
    ensures Bit(a | b, k) == (Bit(a, k) || Bit(b, k))
  {
    if k == 0 {} else if k == 1 {} else if k == 2 {} else if k == 3 {}
    else if k == 4 {} else if k == 5 {} else if k == 6 {} else if k == 7 {}
  }

  lemma BitAnd(a: bv8, b: bv8, k: int)
    ensures Bit(a & b, k) == (Bit(a, k) && Bit(b, k))
  {
    if k == 0 {} else if k == 1 {} else if k == 2 {} else if k == 3 {}
    else if k == 4 {} else if k == 5 {} else if k == 6 {} else if k == 7 {}
  }

  lemma BitNot(a: bv8, k: int)
    requires 0 <= k < 8
    ensures Bit(!a, k) == !Bit(a, k)
  {
    if k == 0 {} else if k == 1 {} else if k == 2 {} else if k == 3 {}
    else if k == 4 {} else if k == 5 {} else if k == 6 {} else if k == 7 {}
  }

  lemma BitShl(a: bv8, s: int, k: int)
    requires 0 <= s <= 8 && 0 <= k < 8
    ensures Bit(a << s, k) == Bit(a, k - s)
  {
    if s == 0 {} else if s == 1 {} else if s == 2 {} else if s == 3 {}
    else if s == 4 {} else if s == 5 {} else if s == 6 {} else if s == 7 {}
  }

  lemma BitShr(a: bv8, s: int, k: int)
    requires 0 <= s <= 8 && 0 <= k < 8
    ensures Bit(a >> s, k) == Bit(a, k + s)
  {
    if s == 0 {} else if s == 1 {} else if s == 2 {} else if s == 3 {}
    else if s == 4 {} else if s == 5 {} else if s == 6 {} else if s == 7 {}
  }

  /** `(byte >> bit) & 0x01`. */
  function TestBit(b: bv8, k: int): (r: bool)
    requires 0 <= k < 8
    ensures r == Bit(b, k)
  {
    BitShr(b, k, 0);
    (b >> k) & 0x01 != 0
  }

  lemma BitConst(k: int)
    ensures Bit(0xFF, k) == (0 <= k < 8)
    ensures !Bit(0, k)
    ensures Bit(1, k) == (k == 0)
  {
  }

  lemma BitOne(j: int, k: int)
    requires 0 <= j < 8 && 0 <= k < 8
    ensures Bit(1 << j, k) == (k == j)
  {
    hide Bit;
    BitShl(1, j, k);
    BitConst(k - j);
  }

  /** The byte mask of rows `lo..hi` (inclusive) of one page, as the C code builds it. */
  lemma BitBand(lo: int, hi: int, k: int)
    requires 0 <= lo <= hi < 8 && 0 <= k < 8
    ensures Bit((0xFF >> (7 + lo - hi)) << lo, k) == (lo <= k <= hi)
  {
    hide *;
    BitShl(0xFF >> (7 + lo - hi), lo, k);
    if k >= lo {
      BitShr(0xFF, 7 + lo - hi, k - lo);
      BitConst(k - lo + 7 + lo - hi);
    } else {
      BitNegative(0xFF >> (7 + lo - hi), k - lo);
    }
  }

  lemma BitNegative(a: bv8, k: int)
    requires !(0 <= k < 8)
    ensures !Bit(a, k)
  {
  }

  /** The index of column `x` of page `bank` in a buffer that is `w` columns wide. */
  function At(w: int, x: int, bank: int): int {
    bank * w + x
  }

  /** How indices move and compare along a column; enough to walk one without multiplying. */
  lemma AtSteps(w: int, x: int, bank: int)
    ensures At(w, x, bank) + w == At(w, x, bank + 1)
    ensures At(w, x, bank) + 1 == At(w, x + 1, bank)
  {
  }

  lemma AtOrder(w: int, x: int, bank: int, bank': int)
    requires 0 < w
    ensures At(w, x, bank) < At(w, x, bank') <==> bank < bank'
  {
    if bank < bank' {
      MulLe(bank + 1, bank', w);
    } else {
      MulLe(bank', bank, w);
    }
  }

  lemma AtMonotone(w: int, x: int, bank: int, bank': int)
    requires 0 <= w && bank <= bank'
    ensures At(w, x, bank) <= At(w, x, bank')
  {
    MulLe(bank, bank', w);
  }

  lemma AtInRange(w: int, banks: int, x: int, bank: int)
    requires 0 <= x < w && 0 <= bank < banks
    ensures 0 <= At(w, x, bank) < w * banks
  {
    Address(w, banks, x, bank);
  }

  /** The byte of column `x` in page `bank` of a buffer that is `w` columns wide; 0 outside the buffer. */
  function Cell(s: seq<bv8>, w: int, x: int, bank: int): bv8 {
    var i := bank * w + x;
    if 0 <= i < |s| then s[i] else 0
  }

  /** Pixel (x, y) of a page-packed buffer. */
  predicate Px(s: seq<bv8>, w: int, x: int, y: int) {
    Bit(Cell(s, w, x, y / 8), y % 8)
  }

  lemma MulLe(a: int, b: int, c: int)
    requires a <= b && 0 <= c
    ensures a * c <= b * c
  {
  }

  lemma Address(w: int, banks: int, x: int, bank: int)
    requires 0 <= x < w && 0 <= bank < banks
    ensures 0 <= bank * w + x < w * banks
  {
    MulLe(0, bank, w);
    MulLe(bank + 1, banks, w);
  }

  lemma AddressInjective(w: int, x: int, bank: int, x': int, bank': int)
    requires 0 <= x < w && 0 <= x' < w
    requires bank * w + x == bank' * w + x'
    ensures x == x' && bank == bank'
  {
    if bank < bank' {
      MulLe(bank + 1, bank', w);
    } else if bank > bank' {
      MulLe(bank' + 1, bank, w);
    }
  }

  /** Storing one byte changes that column of that page and no other. */
  lemma StoreCell(s: seq<bv8>, s': seq<bv8>, w: int, banks: int, x0: int, bank0: int, v: bv8)
    requires 0 <= x0 < w && 0 <= bank0 < banks && |s| == w * banks
    requires 0 <= bank0 * w + x0 < |s| && s' == s[bank0 * w + x0 := v]
    ensures forall x, bank | 0 <= x < w && 0 <= bank < banks ::
              Cell(s', w, x, bank) == if x == x0 && bank == bank0 then v else Cell(s, w, x, bank)
  {
    forall x, bank | 0 <= x < w && 0 <= bank < banks
      ensures Cell(s', w, x, bank) == if x == x0 && bank == bank0 then v else Cell(s, w, x, bank)
    {
      Address(w, banks, x, bank);
      if bank * w + x == bank0 * w + x0 {
        AddressInjective(w, x, bank, x0, bank0);
      }
    }
  }

  lemma Regroup<T>(a: seq<T>, b: seq<T>, c: seq<T>)
    ensures a + (b + c) == a + b + c
  {
  }
}
