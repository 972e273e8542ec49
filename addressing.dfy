/**
 * Position resolution of `StructuredFile.seek` (helper.py) and the expansion of slices used by
 * `__getitem__` and `__setitem__`, on plain values: the byte size of the file, the record
 * width, the byte cursor, the Python value given as position and the seek mode.
 */
module Addressing {
  import opened Wrappers
  import Arith

  /** The Python exceptions the file accessor raises. */
  datatype Error =
    | TypeError              // a position that is not an int
    | IndexError             // a position/mode combination outside the file
    | ValueError             // a slice with step 0
    | KeyError(tag: string)  // a field-type tag missing from the `types` table
    | StructError            // unpacking fewer bytes than a record holds

  /** The Python value passed as a position or index: an int, a slice, or anything else. */
  datatype Key =
    | Int(i: int)
    | Slice(start: Option<int>, stop: Option<int>, step: Option<int>)
    | Other

  /** Unary minus as `backward` and `tail` apply it: an int is negated, anything else stays a non-int. */
  function Negate(k: Key): (r: Key)
    ensures r.Int? <==> k.Int?
    ensures r.Int? ==> r.i + k.i == 0
  {
    if k.Int? then Int(-k.i) else Other
  }

  /**
   * Where `seek(position, mode)` leaves the byte cursor, stated flat: the four accepted cases in
   * their order of priority, the negative absolute case (`tail(-position)`, which re-enters
   * `seek(position, 2)`) merged with from-end mode. `size` is the byte size of the file, `w` the
   * record width and `cur` the byte cursor; the record count is `size / w`.
   */
  function SeekTarget(size: nat, w: nat, cur: nat, position: Key, mode: int): Result<int, Error>
    requires w > 0
  {
    if !position.Int? then Err(TypeError)
    else
      var p, n := position.i, size / w;
      if mode == 0 && 0 <= p < n then Ok(p * w)
      else if mode == 1 && 0 <= cur / w + p < n then Ok(cur + p * w)
      else if (mode == 2 || (mode == 0 && p < 0)) && -n < p <= 0 then Ok(size + p * w)
      else Err(IndexError)
  }

  /** Every accepted seek leaves the cursor inside the file, and an absolute one at a whole record. */
  lemma SeekInBounds(size: nat, w: nat, cur: nat, position: Key, mode: int)
    requires w > 0 && cur <= size
    requires SeekTarget(size, w, cur, position, mode).Ok?
    ensures 0 <= SeekTarget(size, w, cur, position, mode).value <= size
    ensures mode == 0 ==> SeekTarget(size, w, cur, position, mode).value + w <= size
  {
    var p, n := position.i, size / w;
    if mode == 0 && 0 <= p < n {
      Arith.RecordFits(p, size, w);
    } else if mode == 1 && 0 <= cur / w + p < n {
      RelativeInBounds(size, w, cur, p);
    } else {
      FromEndInBounds(size, w, p);
    }
  }

  lemma RelativeInBounds(size: nat, w: nat, cur: nat, p: int)
    requires w > 0 && cur <= size && 0 <= cur / w + p < size / w
    ensures 0 <= cur + p * w < size
  {
    var q := cur / w;
    Arith.DivBounds(cur, w);
    Arith.RecordFits(q + p, size, w);
    assert q * w + p * w == (q + p) * w;
  }

  lemma FromEndInBounds(size: nat, w: nat, p: int)
    requires w > 0 && -(size / w) < p <= 0
    ensures 0 <= size + p * w <= size
    ensures p < 0 ==> size + p * w + w <= size
  {
    var n := size / w;
    Arith.DivBounds(size, w);
    Arith.MulMonotone(p, 0, w);
    Arith.MulMonotone(-n, p, w);
    assert -n * w == -(n * w);
    if p < 0 {
      Arith.MulMonotone(p, -1, w);
    }
  }

  /**
   * `seek(p)`: succeeds exactly for -len < p < len; a non-negative p addresses record p, a
   * negative one counts back from the end of the file. Hence `seek(len)`, `seek(-len)`, and
   * `seek(0)` on an empty file all raise IndexError.
   */
  lemma SeekAbsolute(size: nat, w: nat, cur: nat, p: int)
    requires w > 0
    ensures SeekTarget(size, w, cur, Int(p), 0).Ok? <==> -(size / w) < p < size / w
    ensures SeekTarget(size, w, cur, Int(p), 0).Ok? ==>
      SeekTarget(size, w, cur, Int(p), 0).value == if p >= 0 then p * w else size + p * w
    ensures SeekTarget(size, w, cur, Int(p), 0).Err? ==> SeekTarget(size, w, cur, Int(p), 0).error == IndexError
  {
  }

  /** The boundary cases of absolute seeks. */
  lemma SeekAbsoluteBoundaries(size: nat, w: nat, cur: nat)
    requires w > 0
    ensures SeekTarget(size, w, cur, Int(size / w), 0) == Err(IndexError)
    ensures SeekTarget(size, w, cur, Int(-(size / w)), 0) == Err(IndexError)
    ensures SeekTarget(size, w, cur, Int(-(size / w) - 1), 0) == Err(IndexError)
    ensures size / w == 0 ==> SeekTarget(size, w, cur, Int(0), 0) == Err(IndexError)
    ensures size / w == 1 ==> SeekTarget(size, w, cur, Int(-1), 0) == Err(IndexError)
  {
  }

  /**
   * `seek(p, 1)` (`forward(p)`): accepted exactly when the record index tell() + p is a record of
   * the file; it moves the cursor by p whole records, so tell() grows by exactly p.
   */
  lemma SeekRelative(size: nat, w: nat, cur: nat, p: int)
    requires w > 0 && cur <= size
    ensures SeekTarget(size, w, cur, Int(p), 1).Ok? <==> 0 <= cur / w + p < size / w
    ensures SeekTarget(size, w, cur, Int(p), 1).Ok? ==>
      SeekTarget(size, w, cur, Int(p), 1).value == cur + p * w &&
      SeekTarget(size, w, cur, Int(p), 1).value / w == cur / w + p
    ensures SeekTarget(size, w, cur, Int(p), 1).Err? ==> SeekTarget(size, w, cur, Int(p), 1).error == IndexError
  {
    if 0 <= cur / w + p < size / w {
      SeekInBounds(size, w, cur, Int(p), 1);
      Arith.DivShift(cur, p, w);
    }
  }

  /** `seek(p, 2)`: accepted exactly for -len < p <= 0, placing the cursor p records before the end. */
  lemma SeekFromEnd(size: nat, w: nat, cur: nat, p: int)
    requires w > 0
    ensures SeekTarget(size, w, cur, Int(p), 2).Ok? <==> -(size / w) < p <= 0
    ensures SeekTarget(size, w, cur, Int(p), 2).Ok? ==> SeekTarget(size, w, cur, Int(p), 2).value == size + p * w
    ensures SeekTarget(size, w, cur, Int(p), 2).Err? ==> SeekTarget(size, w, cur, Int(p), 2).error == IndexError
  {
  }

  /** A negative absolute seek resolves exactly as the from-end seek of the same value. */
  lemma NegativeRedirect(size: nat, w: nat, cur: nat, p: int)
    requires w > 0 && p < 0
    ensures SeekTarget(size, w, cur, Int(p), 0) == SeekTarget(size, w, cur, Int(p), 2)
  {
  }

  /** A mode other than 0, 1, 2 raises IndexError; a non-int position raises TypeError in every mode. */
  lemma SeekRejects(size: nat, w: nat, cur: nat, position: Key, mode: int)
    requires w > 0
    ensures position.Int? && mode !in {0, 1, 2} ==> SeekTarget(size, w, cur, position, mode) == Err(IndexError)
    ensures !position.Int? ==> SeekTarget(size, w, cur, position, mode) == Err(TypeError)
  {
  }

  /** `seek(i)` lands where `seek(0)` followed by `forward(i)` lands, for every record i. */
  lemma ModesAgree(size: nat, w: nat, cur: nat, i: int)
    requires w > 0 && 0 <= i < size / w
    ensures SeekTarget(size, w, cur, Int(0), 0) == Ok(0)
    ensures SeekTarget(size, w, 0, Int(i), 1) == SeekTarget(size, w, cur, Int(i), 0)
  {
  }

  /**
   * In a file made of whole records, `seek(-k)` for 0 < k < len addresses record len - k, the
   * Python-style negative index.
   */
  lemma NegativeIndexAligned(size: nat, w: nat, cur: nat, k: int)
    requires w > 0 && size % w == 0 && 0 < k < size / w
    ensures SeekTarget(size, w, cur, Int(-k), 0) == Ok((size / w - k) * w)
  {
    Arith.DivBounds(size, w);
    assert size == (size / w) * w;
    assert (size / w) * w - k * w == (size / w - k) * w;
  }

  /**
   * With a partial trailing record a negative index does not land on a record boundary: three
   * bytes past two 4-byte records, `seek(-1)` puts the cursor at byte 7, inside record 1.
   */
  lemma NegativeIndexUnaligned()
    ensures SeekTarget(11, 4, 0, Int(-1), 0) == Ok(7)
    ensures 7 % 4 != 0
  {
  }

  // ---------------------------------------------------------------------------------------
  // Slices

  /** Python's `range(a, b, s)`: a, a+s, a+2s, ... strictly before b. */
  function Range(a: int, b: int, s: int): (r: seq<int>)
    requires s != 0
    ensures forall k :: 0 <= k < |r| ==> r[k] == a + k * s
    ensures forall k :: 0 <= k < |r| ==> if s > 0 then a <= r[k] < b else b < r[k] <= a
    ensures if s > 0 then a + |r| * s >= b else a + |r| * s <= b
    decreases if s > 0 then b - a else a - b
  {
    if (s > 0 && a < b) || (s < 0 && a > b) then
      var rest := Range(a + s, b, s);
      assert forall k :: 1 <= k <= |rest| ==> (a + s) + (k - 1) * s == a + k * s by {
        forall k | 1 <= k <= |rest| ensures (a + s) + (k - 1) * s == a + k * s {
          Arith.MulStep(k - 1, s);
        }
      }
      assert a + s + |rest| * s == a + (|rest| + 1) * s by { Arith.MulStep(|rest|, s); }
      [a] + rest
    else []
  }

  /** One bound of `slice.indices(length)`: a default, or a value shifted by length when negative and clamped to [lower, upper]. */
  function Bound(v: Option<int>, length: nat, lower: int, upper: int, default: int): int
  {
    match v
    case None => default
    case Some(x) =>
      if x < 0 then (if x + length < lower then lower else x + length)
      else if x > upper then upper else x
  }

  /** `slice.indices(length)`: (start, stop, step) or ValueError for a zero step. */
  function Indices(length: nat, start: Option<int>, stop: Option<int>, step: Option<int>): Result<(int, int, int), Error>
  {
    if step == Some(0) then Err(ValueError)
    else
      var s := if step.Some? then step.value else 1;
      var lower := if s < 0 then -1 else 0;
      var upper := if s < 0 then length - 1 else length;
      Ok((Bound(start, length, lower, upper, if s < 0 then upper else lower),
          Bound(stop, length, lower, upper, if s < 0 then lower else upper),
          s))
  }

  /** The record indices of a slice, `range(*position.indices(length))`. */
  function Expand(length: nat, position: Key): Result<seq<int>, Error>
    requires position.Slice?
  {
    match Indices(length, position.start, position.stop, position.step)
    case Err(e) => Err(e)
    case Ok((a, b, s)) => Ok(Range(a, b, s))
  }

  /**
   * A slice expands to the indices of records of the file, as an arithmetic progression with the
   * slice's step; only a zero step is rejected, with ValueError.
   */
  lemma ExpandShape(length: nat, position: Key)
    requires position.Slice?
    ensures Expand(length, position).Err? <==> position.step == Some(0)
    ensures Expand(length, position).Err? ==> Expand(length, position).error == ValueError
    ensures Expand(length, position).Ok? ==>
      var idx, s := Expand(length, position).value, Indices(length, position.start, position.stop, position.step).value.2;
      (forall k :: 0 <= k < |idx| ==> 0 <= idx[k] < length) &&
      (forall k :: 0 <= k < |idx| - 1 ==> idx[k + 1] == idx[k] + s)
  {
    if position.step != Some(0) {
      var (a, b, s) := Indices(length, position.start, position.stop, position.step).value;
      var idx := Range(a, b, s);
      forall k | 0 <= k < |idx| - 1 ensures idx[k + 1] == idx[k] + s {
        Arith.MulStep(k, s);
      }
    }
  }

  /** Slices on a file of four records. */
  lemma ExpandExamples()
    ensures Expand(4, Slice(Some(1), Some(3), None)) == Ok([1, 2])
    ensures Expand(4, Slice(Some(0), Some(2), None)) == Ok([0, 1])
    ensures Expand(4, Slice(None, None, Some(-1))) == Ok([3, 2, 1, 0])
    ensures Expand(4, Slice(Some(-2), Some(10), None)) == Ok([2, 3])
    ensures Expand(0, Slice(None, None, None)) == Ok([])
  {
    assert Range(1, 3, 1) == [1, 2];
    assert Range(0, 2, 1) == [0, 1];
    assert Range(3, -1, -1) == [3, 2, 1, 0];
    assert Range(2, 4, 1) == [2, 3];
  }
}
