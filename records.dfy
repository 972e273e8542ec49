/**
 * The bytes of a record file seen as fixed-width records: record p is the w bytes at offset
 * p * w, and a trailing partial record (fewer than w bytes) is not a record.
 */
module RecordBytes {
  import opened Wrappers
  import Arith

  /** The bytes after a write of `d` at byte offset `at`: overwritten in place, the file growing only past its end. */
  function Overwrite(s: seq<bv8>, at: nat, d: seq<bv8>): (r: seq<bv8>)
    requires at <= |s|
    ensures |r| == if at + |d| <= |s| then |s| else at + |d|
    ensures r[at..at + |d|] == d
    ensures forall j :: 0 <= j < |r| && !(at <= j < at + |d|) ==> j < |s| && r[j] == s[j]
  {
    s[..at] + d + (if at + |d| <= |s| then s[at + |d|..] else [])
  }

  /** The records that successive reads yield from byte offset `at` until a read comes back short. */
  function RecordsFrom(bytes: seq<bv8>, at: nat, w: nat): seq<seq<bv8>>
    requires w > 0
    decreases |bytes| - at
  {
    if at + w <= |bytes| then [bytes[at..at + w]] + RecordsFrom(bytes, at + w, w) else []
  }

  /** Number of whole records in the file. */
  function Count(bytes: seq<bv8>, w: nat): nat
    requires w > 0
  {
    |bytes| / w
  }

  /** Record p: the w bytes at offset p * w. */
  function RecordAt(bytes: seq<bv8>, w: nat, p: int): (r: seq<bv8>)
    requires w > 0 && 0 <= p < Count(bytes, w)
    ensures |r| == w
  {
    Arith.RecordFits(p, |bytes|, w);
    bytes[p * w..p * w + w]
  }

  /** The bytes past the last whole record (a partial trailing record, possibly empty). */
  function Trailing(bytes: seq<bv8>, w: nat): (r: seq<bv8>)
    requires w > 0
    ensures |r| < w
  {
    Arith.DivBounds(|bytes|, w);
    bytes[Count(bytes, w) * w..]
  }

  /** All whole records of the file, in order: Count of them, the p-th being record p. */
  function Records(bytes: seq<bv8>, w: nat): (r: seq<seq<bv8>>)
    requires w > 0
    ensures |r| == Count(bytes, w)
    ensures forall p :: 0 <= p < Count(bytes, w) ==> r[p] == RecordAt(bytes, w, p)
  {
    RecordsFromAligned(bytes, w, 0, 0);
    RecordsFrom(bytes, 0, w)
  }

  /** Reading from the start of record i yields exactly records i, i + 1, ..., Count - 1. */
  lemma {:induction false} RecordsFromAligned(bytes: seq<bv8>, w: nat, i: nat, at: nat)
    requires w > 0 && i <= Count(bytes, w) && at == i * w
    ensures |RecordsFrom(bytes, at, w)| == Count(bytes, w) - i
    ensures forall k :: 0 <= k < Count(bytes, w) - i ==> RecordsFrom(bytes, at, w)[k] == RecordAt(bytes, w, i + k)
    decreases Count(bytes, w) - i
  {
    var n := Count(bytes, w);
    if i < n {
      Arith.RecordFits(i, |bytes|, w);
      Arith.MulStep(i, w);
      RecordsFromAligned(bytes, w, i + 1, at + w);
      var rest := RecordsFrom(bytes, at + w, w);
      assert RecordsFrom(bytes, at, w) == [RecordAt(bytes, w, i)] + rest;
    } else {
      Arith.DivBounds(|bytes|, w);
      Arith.MulStep(i, w);
      assert at + w > |bytes|;
    }
  }

  /** Overwriting record p changes record p to d and no other record, nor the trailing bytes. */
  lemma OverwriteRecord(s: seq<bv8>, w: nat, p: nat, d: seq<bv8>)
    requires w > 0 && |d| == w && p < Count(s, w)
    ensures |Overwrite(s, p * w, d)| == |s|
    ensures forall q :: 0 <= q < Count(s, w) ==>
      RecordAt(Overwrite(s, p * w, d), w, q) == if q == p then d else RecordAt(s, w, q)
    ensures Trailing(Overwrite(s, p * w, d), w) == Trailing(s, w)
  {
    Arith.RecordFits(p, |s|, w);
    var r := Overwrite(s, p * w, d);
    forall q | 0 <= q < Count(s, w)
      ensures RecordAt(r, w, q) == if q == p then d else RecordAt(s, w, q)
    {
      OtherRecord(s, w, p, q, d);
    }
    OverwriteTail(s, w, p, d);
  }

  lemma OtherRecord(s: seq<bv8>, w: nat, p: nat, q: nat, d: seq<bv8>)
    requires w > 0 && |d| == w && p < Count(s, w) && q < Count(s, w)
    ensures |Overwrite(s, p * w, d)| == |s|
    ensures RecordAt(Overwrite(s, p * w, d), w, q) == if q == p then d else RecordAt(s, w, q)
  {
    Arith.RecordFits(p, |s|, w);
    Arith.RecordFits(q, |s|, w);
    var r := Overwrite(s, p * w, d);
    if q < p {
      Arith.MulMonotone(q + 1, p, w);
      Arith.MulStep(q, w);
      assert forall j :: q * w <= j < q * w + w ==> r[j] == s[j];
    } else if q > p {
      Arith.MulMonotone(p + 1, q, w);
      Arith.MulStep(p, w);
      assert forall j :: q * w <= j < q * w + w ==> r[j] == s[j];
    }
  }

  /** Overwriting a whole record leaves the trailing partial record alone. */
  lemma OverwriteTail(s: seq<bv8>, w: nat, p: nat, d: seq<bv8>)
    requires w > 0 && |d| == w && p < Count(s, w)
    ensures |Overwrite(s, p * w, d)| == |s|
    ensures Trailing(Overwrite(s, p * w, d), w) == Trailing(s, w)
  {
    var n := Count(s, w);
    Arith.RecordFits(p, |s|, w);
    Arith.MulMonotone(p + 1, n, w);
    Arith.MulStep(p, w);
  }

  /**
   * Writing one record at the end of a file of whole records appends it: the file then holds one
   * more record, the new last one, and still no partial record.
   */
  lemma AppendRecord(s: seq<bv8>, w: nat, d: seq<bv8>)
    requires w > 0 && |d| == w && Trailing(s, w) == []
    ensures Count(Overwrite(s, |s|, d), w) == Count(s, w) + 1
    ensures Records(Overwrite(s, |s|, d), w) == Records(s, w) + [d]
    ensures Trailing(Overwrite(s, |s|, d), w) == []
  {
    var n := Count(s, w);
    var t := Overwrite(s, |s|, d);
    assert t == s + d;
    assert |s| == n * w;
    Arith.DivShift(|s|, 1, w);
    assert Count(t, w) == n + 1;
    Arith.MulStep(n, w);
    var rs, rt := Records(s, w), Records(t, w);
    forall p | 0 <= p < n + 1 ensures rt[p] == (rs + [d])[p] {
      if p < n {
        Arith.RecordFits(p, |s|, w);
        assert RecordAt(t, w, p) == RecordAt(s, w, p);
      } else {
        assert RecordAt(t, w, p) == t[|s|..|s| + w] == d;
      }
    }
  }

  /** Every index of `idx` is a record of a file of `n` whole records. */
  predicate AllBelow(idx: seq<int>, n: nat)
  {
    forall k :: 0 <= k < |idx| ==> 0 <= idx[k] < n
  }

  /**
   * The same record `d` written at every record index of `idx`, in order. Every record listed
   * becomes `d`; every other record and the trailing partial record keep their bytes.
   */
  function Fill(s: seq<bv8>, w: nat, idx: seq<int>, d: seq<bv8>): (r: seq<bv8>)
    requires w > 0 && |d| == w && AllBelow(idx, Count(s, w))
    ensures |r| == |s|
    ensures forall q :: 0 <= q < Count(s, w) ==> RecordAt(r, w, q) == if q in idx then d else RecordAt(s, w, q)
    ensures Trailing(r, w) == Trailing(s, w)
    decreases |idx|
  {
    if idx == [] then s
    else
      var last := idx[|idx| - 1];
      var before := idx[..|idx| - 1];
      var s' := Fill(s, w, before, d);
      OverwriteRecord(s', w, last, d);
      assert forall q :: 0 <= q < Count(s, w) ==> (q in idx <==> q == last || q in before) by {
        assert idx == before + [last];
      }
      Overwrite(s', last * w, d)
  }

  /** The records at the listed indices, in the order listed. */
  function Pick(recs: seq<seq<bv8>>, idx: seq<int>): (r: seq<seq<bv8>>)
    requires AllBelow(idx, |recs|)
    ensures |r| == |idx|
    ensures forall k :: 0 <= k < |idx| ==> r[k] == recs[idx[k]]
  {
    seq(|idx|, k requires 0 <= k < |idx| => recs[idx[k]])
  }

  /** The first position of `item` in `recs`, or None when it does not occur. */
  function FirstIndex(recs: seq<seq<bv8>>, item: seq<bv8>): (r: Option<nat>)
    ensures r.None? <==> item !in recs
    ensures r.Some? ==> r.value < |recs| && recs[r.value] == item && item !in recs[..r.value]
  {
    if recs == [] then None
    else if recs[0] == item then Some(0)
    else match FirstIndex(recs[1..], item)
      case None => None
      case Some(k) =>
        assert recs[..k + 1] == [recs[0]] + recs[1..][..k];
        Some(k + 1)
  }

  /** In a file of records [A, B, C, D] one byte wide, the records at indices [1, 2] are [B, C]. */
  lemma PickExample()
    ensures AllBelow([1, 2], |Records([10, 11, 12, 13], 1)|)
    ensures Pick(Records([10, 11, 12, 13], 1), [1, 2]) == [[11], [12]]
  {
    var s: seq<bv8> := [10, 11, 12, 13];
    assert RecordAt(s, 1, 1) == [11] && RecordAt(s, 1, 2) == [12];
  }

  /** In a file of records [A, B, C, D] one byte wide, writing V at indices [0, 1] leaves [V, V, C, D]. */
  lemma FillExample()
    ensures Fill([10, 11, 12, 13], 1, [0, 1], [99]) == [99, 99, 12, 13]
  {
    var s: seq<bv8> := [10, 11, 12, 13];
    var r := Fill(s, 1, [0, 1], [99]);
    assert RecordAt(r, 1, 0) == [99] && RecordAt(r, 1, 1) == [99];
    assert RecordAt(r, 1, 2) == RecordAt(s, 1, 2) && RecordAt(r, 1, 3) == RecordAt(s, 1, 3);
    assert r == [r[0], r[1], r[2], r[3]];
  }
}
