/** Facts about integer division and multiplication by a positive record width. */
module Arith {

  lemma DivBounds(x: nat, w: nat)
    requires w > 0
    ensures (x / w) * w <= x < (x / w) * w + w
  {
  }

  lemma MulStep(p: int, w: int)
    ensures p * w + w == (p + 1) * w
    ensures p * w - w == (p - 1) * w
  {
  }

  lemma MulMonotone(p: int, q: int, w: nat)
    requires p <= q
    ensures p * w <= q * w
  {
  }

  /** A record index below x / w starts a whole record inside the first x bytes. */
  lemma RecordFits(p: int, x: nat, w: nat)
    requires w > 0 && 0 <= p < x / w
    ensures 0 <= p * w && p * w + w <= x
  {
    DivBounds(x, w);
    MulMonotone(p + 1, x / w, w);
    MulStep(p, w);
  }

  /** A record starting at p * w fits in x bytes exactly when p is below x / w. */
  lemma RecordFitsIff(p: int, x: nat, w: nat)
    requires w > 0 && 0 <= p
    ensures p * w + w <= x <==> p < x / w
  {
    if p < x / w {
      RecordFits(p, x, w);
    } else {
      DivBounds(x, w);
      MulMonotone(x / w, p, w);
    }
  }

  /** Adding whole records to an offset moves its record index by as many records. */
  lemma DivShift(x: nat, p: int, w: nat)
    requires w > 0 && x + p * w >= 0
    ensures (x + p * w) / w == x / w + p
  {
    DivBounds(x, w);
    var q, r := x / w, x % w;
    assert x == q * w + r;
    assert x + p * w == (q + p) * w + r by {
      assert q * w + p * w == (q + p) * w;
    }
    DivUnique(x + p * w, q + p, r, w);
  }

  lemma DivUnique(y: int, q: int, r: int, w: nat)
    requires w > 0 && 0 <= r < w && y == q * w + r
    ensures y / w == q
  {
    var d, m := y / w, y % w;
    assert y == d * w + m;
    assert (d - q) * w == r - m by {
      assert d * w - q * w == (d - q) * w;
    }
    if d > q {
      MulMonotone(1, d - q, w);
    } else if d < q {
      MulMonotone(1, q - d, w);
    }
  }
}
