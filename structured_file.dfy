/**
 * `StructuredFile` (helper.py): a binary file read and written as an array of fixed-width
 * records through one byte cursor. The file is its bytes and the cursor a byte offset; the
 * struct codec is left abstract, so a record is the raw W bytes it packs to.
 */
module StructuredFiles {
  import opened Wrappers
  import opened Addressing
  import opened RecordBytes
  import Layout
  import Arith

  /** What `__getitem__` returns: one record for an int position, a list of records for a slice. */
  datatype Item = Single(record: seq<bv8>) | List(records: seq<seq<bv8>>)

  /**
   * `StructuredFile(filename, structure, mode)`: fails with KeyError on an unknown field-type
   * tag; otherwise a file with the compiled format, its cursor at byte 0. `width` is the size of
   * a record under that format and `contents` the bytes of the opened file.
   */
  method Open(structure: seq<string>, width: nat, contents: seq<bv8>) returns (r: Result<StructuredFile, Error>)
    requires width > 0
    ensures Layout.Compile(structure).Err? ==> r == Err(KeyError(Layout.Compile(structure).error))
    ensures Layout.Compile(structure).Ok? ==>
      r.Ok? && fresh(r.value) && r.value.Valid() && r.value.format == Layout.Compile(structure).value &&
      r.value.W == width && r.value.bytes == contents && r.value.cur == 0
  {
    match Layout.Compile(structure)
    case Err(tag) =>
      r := Err(KeyError(tag));
    case Ok(format) =>
      var f := new StructuredFile(format, width, contents);
      r := Ok(f);
  }

  class StructuredFile {
    /** The struct format string of a record. */
    const format: string
    /** The size of a record, in bytes. */
    const W: nat
    /** The bytes of the file. */
    var bytes: seq<bv8>
    /** The byte cursor of the file. */
    var cur: nat

    ghost predicate Valid()
      reads this
    {
      W > 0 && cur <= |bytes|
    }

    constructor (format: string, width: nat, contents: seq<bv8>)
      requires width > 0
      ensures Valid()
      ensures this.format == format && W == width && bytes == contents && cur == 0
    {
      this.format := format;
      W := width;
      bytes := contents;
      cur := 0;
    }

    /** `tell()`: the index of the record the cursor is in. */
    function Tell(): (t: nat)
      reads this
      requires Valid()
      ensures t * W <= cur < t * W + W
    {
      Arith.DivBounds(cur, W);
      cur / W
    }

    /** `eof()`: tell() == len(), that is, the cursor is past the last whole record. */
    function Eof(): (b: bool)
      reads this
      requires Valid()
      ensures b <==> Count(bytes, W) * W <= cur
    {
      Arith.DivBounds(|bytes|, W);
      Arith.DivBounds(cur, W);
      if Tell() < Count(bytes, W) then
        Arith.MulMonotone(Tell() + 1, Count(bytes, W), W);
        false
      else
        Arith.MulMonotone(Count(bytes, W), Tell(), W);
        true
    }

    /**
     * `__len__`: saves the cursor, seeks to the end to learn the byte size, restores the cursor
     * and returns the number of whole records.
     */
    method Length() returns (n: nat)
      requires Valid()
      modifies this
      ensures Valid() && bytes == old(bytes) && cur == old(cur)
      ensures n == Count(bytes, W)
    {
      var pos := cur;
      cur := |bytes|;
      var size := cur;
      cur := pos;
      n := size / W;
    }

    /**
     * `seek(position, from_what)`: checks the position against the record count in the order of
     * the source, redirects a negative absolute position to `tail`, and moves the byte cursor;
     * returns the new byte offset. A rejected seek leaves the cursor where it was.
     */
    method Seek(position: Key, mode: int) returns (r: Result<int, Error>)
      requires Valid()
      modifies this
      ensures Valid() && bytes == old(bytes)
      ensures r == SeekTarget(|bytes|, W, old(cur), position, mode)
      ensures cur == if r.Ok? then r.value else old(cur)
      decreases if mode == 0 then 2 else 0
    {
      if !position.Int? {
        return Err(TypeError);
      }
      var p := position.i;
      var n := Length();
      if 0 <= p < n && mode == 0 {
      } else if 0 <= Tell() + p < n && mode == 1 {
      } else if -n < p <= 0 && mode == 2 {
      } else if p < 0 && mode == 0 {
        r := Tail(Int(-p));
        NegativeRedirect(|bytes|, W, old(cur), p);
        return;
      } else {
        return Err(IndexError);
      }
      SeekInBounds(|bytes|, W, cur, position, mode);
      // the underlying file.seek(position * size, from_what)
      cur := if mode == 0 then p * W else if mode == 1 then cur + p * W else |bytes| + p * W;
      r := Ok(cur);
    }

    /** `forward(position)`: `seek(position, 1)`. */
    method Forward(position: Key) returns (r: Result<int, Error>)
      requires Valid()
      modifies this
      ensures Valid() && bytes == old(bytes)
      ensures r == SeekTarget(|bytes|, W, old(cur), position, 1)
      ensures cur == if r.Ok? then r.value else old(cur)
    {
      r := Seek(position, 1);
    }

    /** `backward(position)`: `forward(-position)`. */
    method Backward(position: Key) returns (r: Result<int, Error>)
      requires Valid()
      modifies this
      ensures Valid() && bytes == old(bytes)
      ensures r == SeekTarget(|bytes|, W, old(cur), Negate(position), 1)
      ensures cur == if r.Ok? then r.value else old(cur)
    {
      r := Forward(Negate(position));
    }

    /** `tail(position)`: `seek(-position, 2)`; the source's default position 0 is `Tail(Int(0))`. */
    method Tail(position: Key) returns (r: Result<int, Error>)
      requires Valid()
      modifies this
      ensures Valid() && bytes == old(bytes)
      ensures r == SeekTarget(|bytes|, W, old(cur), Negate(position), 2)
      ensures cur == if r.Ok? then r.value else old(cur)
      decreases 1
    {
      r := Seek(Negate(position), 2);
    }

    /**
     * `read()`: reads up to W bytes at the cursor and unpacks them; fewer than W bytes fail to
     * unpack (struct.error), after the read has already moved the cursor to the end of the data.
     */
    method Read() returns (r: Result<seq<bv8>, Error>)
      requires Valid()
      modifies this
      ensures Valid() && bytes == old(bytes)
      ensures old(cur) + W <= |bytes| ==> r == Ok(bytes[old(cur)..old(cur) + W]) && cur == old(cur) + W
      ensures old(cur) + W > |bytes| ==> r == Err(StructError) && cur == |bytes|
    {
      var end := if cur + W <= |bytes| then cur + W else |bytes|;
      var chunk := bytes[cur..end];
      cur := end;
      if |chunk| == W {
        r := Ok(chunk);
      } else {
        r := Err(StructError);
      }
    }

    /**
     * `write(tuple)`: writes one packed record at the cursor, overwriting in place and growing the
     * file where the record runs past its end; the cursor ends just after the record.
     */
    method Write(data: seq<bv8>)
      requires Valid() && |data| == W
      modifies this
      ensures Valid()
      ensures bytes == Overwrite(old(bytes), old(cur), data)
      ensures cur == old(cur) + W
    {
      bytes := Overwrite(bytes, cur, data);
      cur := cur + W;
    }

    /**
     * `__iter__`: reads records from the cursor until a read fails, then stops. The records are
     * those that successive reads from the starting offset yield; the cursor ends at the end of the data.
     */
    method Iterate() returns (records: seq<seq<bv8>>)
      requires Valid()
      modifies this
      ensures Valid() && bytes == old(bytes)
      ensures records == RecordsFrom(bytes, old(cur), W)
      ensures cur == |bytes|
    {
      records := [];
      while true
        invariant Valid() && bytes == old(bytes)
        invariant records + RecordsFrom(bytes, cur, W) == RecordsFrom(bytes, old(cur), W)
        decreases |bytes| - cur
      {
        ghost var before := cur;
        var r := Read();
        if r.Err? {
          assert RecordsFrom(bytes, before, W) == [];
          break;
        }
        assert RecordsFrom(bytes, before, W) == [r.value] + RecordsFrom(bytes, cur, W);
        records := records + [r.value];
      }
    }

    /**
     * `__getitem__(position)`: an int position seeks (negative ones from the end) and reads one
     * record; a slice reads, in order, the record at every index of the slice.
     */
    method GetItem(position: Key) returns (r: Result<Item, Error>)
      requires Valid()
      modifies this
      ensures Valid() && bytes == old(bytes)
      ensures position.Slice? ==>
        match Expand(Count(bytes, W), position)
        case Err(e) => r == Err(e) && cur == old(cur)
        case Ok(idx) =>
          AllBelow(idx, Count(bytes, W)) && r == Ok(List(Pick(Records(bytes, W), idx))) &&
          cur == if idx == [] then old(cur) else (idx[|idx| - 1] + 1) * W
      ensures !position.Slice? ==>
        match SeekTarget(|bytes|, W, old(cur), position, 0)
        case Err(e) => r == Err(e) && cur == old(cur)
        case Ok(t) => 0 <= t && t + W <= |bytes| && r == Ok(Single(bytes[t..t + W])) && cur == t + W
      ensures position.Int? && 0 <= position.i < Count(bytes, W) ==> r == Ok(Single(RecordAt(bytes, W, position.i)))
      decreases if position.Slice? then 2 else 0
    {
      if position.Slice? {
        var n := Length();
        var e := Expand(n, position);
        if e.Err? {
          return Err(e.error);
        }
        ExpandShape(n, position);
        var out := GetRecords(e.value);
        return Ok(List(out));
      }
      var s := Seek(position, 0);
      if s.Err? {
        return Err(s.error);
      }
      SeekInBounds(|bytes|, W, old(cur), position, 0);
      var rec := Read();
      r := Ok(Single(rec.value));
    }

    /** The list comprehension of a slice `__getitem__`: `[self[p] for p in idx]`. */
    method GetRecords(idx: seq<int>) returns (out: seq<seq<bv8>>)
      requires Valid() && AllBelow(idx, Count(bytes, W))
      modifies this
      ensures Valid() && bytes == old(bytes)
      ensures out == Pick(Records(bytes, W), idx)
      ensures cur == if idx == [] then old(cur) else (idx[|idx| - 1] + 1) * W
      decreases 1
    {
      out := [];
      var i := 0;
      while i < |idx|
        invariant 0 <= i <= |idx|
        invariant Valid() && bytes == old(bytes)
        invariant out == Pick(Records(bytes, W), idx[..i])
        invariant cur == if i == 0 then old(cur) else (idx[i - 1] + 1) * W
      {
        var x := GetItem(Int(idx[i]));
        Arith.MulStep(idx[i], W);
        assert idx[..i + 1] == idx[..i] + [idx[i]];
        out := out + [x.value.record];
        i := i + 1;
      }
      assert idx[..i] == idx;
    }

    /**
     * `__setitem__(position, data)`: an int position seeks and writes one record; a slice writes
     * the same record at every index of the slice, in order.
     */
    method SetItem(position: Key, data: seq<bv8>) returns (r: Result<(), Error>)
      requires Valid() && |data| == W
      modifies this
      ensures Valid()
      ensures position.Slice? ==>
        match Expand(Count(old(bytes), W), position)
        case Err(e) => r == Err(e) && bytes == old(bytes) && cur == old(cur)
        case Ok(idx) =>
          AllBelow(idx, Count(old(bytes), W)) && r == Ok(()) && bytes == Fill(old(bytes), W, idx, data) &&
          cur == if idx == [] then old(cur) else (idx[|idx| - 1] + 1) * W
      ensures !position.Slice? ==>
        match SeekTarget(|old(bytes)|, W, old(cur), position, 0)
        case Err(e) => r == Err(e) && bytes == old(bytes) && cur == old(cur)
        case Ok(t) =>
          0 <= t && t + W <= |old(bytes)| && r == Ok(()) && bytes == Overwrite(old(bytes), t, data) && cur == t + W
      ensures position.Int? && 0 <= position.i < Count(old(bytes), W) ==>
        r == Ok(()) && bytes == Overwrite(old(bytes), position.i * W, data) && cur == position.i * W + W
      decreases if position.Slice? then 2 else 0
    {
      if position.Slice? {
        var n := Length();
        var e := Expand(n, position);
        if e.Err? {
          return Err(e.error);
        }
        ExpandShape(n, position);
        SetRecords(e.value, data);
        return Ok(());
      }
      var s := Seek(position, 0);
      if s.Err? {
        return Err(s.error);
      }
      SeekInBounds(|bytes|, W, old(cur), position, 0);
      Write(data);
      r := Ok(());
    }

    /** The loop of a slice `__setitem__`: `for p in idx: self[p] = data`. */
    method SetRecords(idx: seq<int>, data: seq<bv8>)
      requires Valid() && |data| == W && AllBelow(idx, Count(bytes, W))
      modifies this
      ensures Valid()
      ensures bytes == Fill(old(bytes), W, idx, data)
      ensures cur == if idx == [] then old(cur) else (idx[|idx| - 1] + 1) * W
      decreases 1
    {
      var i := 0;
      while i < |idx|
        invariant 0 <= i <= |idx|
        invariant Valid() && |bytes| == |old(bytes)|
        invariant bytes == Fill(old(bytes), W, idx[..i], data)
        invariant cur == if i == 0 then old(cur) else (idx[i - 1] + 1) * W
      {
        var x := SetItem(Int(idx[i]), data);
        Arith.MulStep(idx[i], W);
        assert idx[..i + 1][..i] == idx[..i];
        i := i + 1;
      }
      assert idx[..i] == idx;
    }

    /**
     * `__contains__(item)`: remembers tell(), seeks to record 0 (IndexError on an empty file) and
     * reads records until one equals `item` or a read fails. When found, the cursor stays just past
     * the match; otherwise `seek(p)` restores the remembered record, which itself raises
     * IndexError when the cursor started past the last whole record.
     */
    method Contains(item: seq<bv8>) returns (r: Result<bool, Error>)
      requires Valid()
      modifies this
      ensures Valid() && bytes == old(bytes)
      ensures Count(bytes, W) == 0 ==> r == Err(IndexError) && cur == old(cur)
      ensures Count(bytes, W) > 0 && item in Records(bytes, W) ==>
        r == Ok(true) && cur == (FirstIndex(Records(bytes, W), item).value + 1) * W
      ensures Count(bytes, W) > 0 && item !in Records(bytes, W) && old(cur) / W < Count(bytes, W) ==>
        r == Ok(false) && cur == (old(cur) / W) * W
      ensures Count(bytes, W) > 0 && item !in Records(bytes, W) && old(cur) / W >= Count(bytes, W) ==>
        r == Err(IndexError) && cur == |bytes|
    {
      var p := Tell();
      var s := Seek(Int(0), 0);
      if s.Err? {
        return Err(s.error);
      }
      var found := Scan(item);
      if found {
        return Ok(true);
      }
      s := Seek(Int(p), 0);
      if s.Err? {
        return Err(s.error);
      }
      return Ok(false);
    }

    /**
     * The loop `for i in self: if i == item: return True` of `__contains__`, run from record 0:
     * stops just past the first record equal to `item`, or at the end of the data when none is.
     */
    method Scan(item: seq<bv8>) returns (found: bool)
      requires Valid() && cur == 0
      modifies this
      ensures Valid() && bytes == old(bytes)
      ensures found <==> item in Records(bytes, W)
      ensures found ==> cur == (FirstIndex(Records(bytes, W), item).value + 1) * W
      ensures !found ==> cur == |bytes|
    {
      ghost var recs := Records(bytes, W);
      ghost var k := 0;
      while true
        invariant Valid() && bytes == old(bytes)
        invariant 0 <= k <= |recs| && cur == k * W
        invariant item !in recs[..k]
        decreases |bytes| - cur
      {
        Arith.RecordFitsIff(k, |bytes|, W);
        var rec := Read();
        if rec.Err? {
          assert recs[..k] == recs;
          return false;
        }
        assert rec.value == RecordAt(bytes, W, k) == recs[k];
        if rec.value == item {
          return true;
        }
        assert recs[..k + 1] == recs[..k] + [recs[k]];
        Arith.MulStep(k, W);
        k := k + 1;
      }
    }

    /** `__enter__`: `seek(0)`, so entering the scope of an empty file raises IndexError. */
    method Enter() returns (r: Result<(), Error>)
      requires Valid()
      modifies this
      ensures Valid() && bytes == old(bytes)
      ensures Count(bytes, W) == 0 ==> r == Err(IndexError) && cur == old(cur)
      ensures Count(bytes, W) > 0 ==> r == Ok(()) && cur == 0
    {
      var s := Seek(Int(0), 0);
      if s.Err? {
        return Err(s.error);
      }
      return Ok(());
    }
  }
}
