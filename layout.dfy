/**
 * The record layout built by `StructuredFile.__init__` (helper.py): every field-type tag is
 * looked up in the `types` table and the resulting struct format codes are joined with one
 * `x` (pad byte) between adjacent tags.
 */
module Layout {
  import opened Wrappers

  /** `c` repeated `n` times. */
  function Repeat(c: char, n: nat): (r: string)
    ensures |r| == n
    ensures forall i :: 0 <= i < n ==> r[i] == c
  {
    if n == 0 then [] else [c] + Repeat(c, n - 1)
  }

  /** The `types` table: the struct format codes of one field-type tag, or None for an unknown tag. */
  function Code(tag: string): Option<string>
  {
    if tag == "integer" then Some("i")
    else if tag == "string" then Some(Repeat('c', 255))
    else if tag == "char" then Some("c")
    else if tag == "boolean" then Some("?")
    else if tag == "long" then Some("l")
    else if tag == "float" then Some("f")
    else if tag == "double" then Some("d")
    else if tag == "real" then Some("d")
    else None
  }

  predicate Known(tag: string)
  {
    Code(tag).Some?
  }

  /** How many values a record holds for one tag: a `string` is 255 separate `c` fields. */
  function Values(tag: string): nat
  {
    if tag == "string" then 255 else 1
  }

  /** The values of a whole record. */
  function ValueCount(structure: seq<string>): nat
  {
    if structure == [] then 0 else Values(structure[0]) + ValueCount(structure[1..])
  }

  /** `[types[t] for t in structure]`: fails with the first tag missing from the table (a KeyError). */
  function Codes(structure: seq<string>): Result<seq<string>, string>
  {
    if structure == [] then Ok([])
    else match Code(structure[0])
      case None => Err(structure[0])
      case Some(c) =>
        match Codes(structure[1..])
        case Err(t) => Err(t)
        case Ok(cs) => Ok([c] + cs)
  }

  /** `sep.join(parts)`. */
  function Join(parts: seq<string>, sep: char): string
  {
    if parts == [] then ""
    else if |parts| == 1 then parts[0]
    else parts[0] + [sep] + Join(parts[1..], sep)
  }

  /** The struct format string of a record, `"x".join([types[t] for t in structure])`; Err(t) is KeyError(t). */
  function Compile(structure: seq<string>): Result<string, string>
  {
    match Codes(structure)
    case Err(t) => Err(t)
    case Ok(cs) => Ok(Join(cs, 'x'))
  }

  /** Number of occurrences of `c` in `s`. */
  function Occurrences(s: string, c: char): nat
  {
    if s == [] then 0 else (if s[0] == c then 1 else 0) + Occurrences(s[1..], c)
  }

  lemma {:induction false} OccurrencesAppend(a: string, b: string, c: char)
    ensures Occurrences(a + b, c) == Occurrences(a, c) + Occurrences(b, c)
  {
    if a != [] {
      assert (a + b)[1..] == a[1..] + b;
      OccurrencesAppend(a[1..], b, c);
    } else {
      assert a + b == b;
    }
  }

  lemma {:induction false} RepeatOccurrences(n: nat, c: char, d: char)
    ensures Occurrences(Repeat(c, n), d) == if c == d then n else 0
  {
    if n > 0 {
      assert Repeat(c, n)[1..] == Repeat(c, n - 1);
      RepeatOccurrences(n - 1, c, d);
    }
  }

  /** No format code of the table is a pad byte, and each code has one character per value. */
  lemma CodeShape(tag: string)
    requires Known(tag)
    ensures Occurrences(Code(tag).value, 'x') == 0
    ensures |Code(tag).value| == Values(tag)
  {
    if tag == "string" {
      RepeatOccurrences(255, 'c', 'x');
    }
  }

  /** Construction fails exactly when some tag is unknown, and then with the first unknown tag. */
  lemma {:induction false} CompileFailsOnFirstUnknown(structure: seq<string>)
    ensures Compile(structure).Err? <==> exists i :: 0 <= i < |structure| && !Known(structure[i])
    ensures Compile(structure).Err? ==>
      exists i :: 0 <= i < |structure| && structure[i] == Compile(structure).error && !Known(structure[i])
        && forall j :: 0 <= j < i ==> Known(structure[j])
  {
    if structure != [] {
      CompileFailsOnFirstUnknown(structure[1..]);
      if Known(structure[0]) && Compile(structure[1..]).Err? {
        var i :| 0 <= i < |structure[1..]| && structure[1..][i] == Compile(structure[1..]).error
          && !Known(structure[1..][i]) && forall j :: 0 <= j < i ==> Known(structure[1..][j]);
        assert structure[i + 1] == structure[1..][i];
        forall j | 0 <= j < i + 1 ensures Known(structure[j]) {
          if j > 0 { assert structure[j] == structure[1..][j - 1]; }
        }
      }
      if Known(structure[0]) && Compile(structure[1..]).Ok? {
        forall i | 0 <= i < |structure| ensures Known(structure[i]) {
          if i > 0 { assert structure[i] == structure[1..][i - 1]; }
        }
      }
    }
  }

  lemma {:induction false} CodesShape(structure: seq<string>)
    requires Codes(structure).Ok?
    ensures |Codes(structure).value| == |structure|
    ensures forall i :: 0 <= i < |structure| ==> Known(structure[i]) && Codes(structure).value[i] == Code(structure[i]).value
  {
    if structure != [] {
      CodesShape(structure[1..]);
      forall i | 0 <= i < |structure|
        ensures Known(structure[i]) && Codes(structure).value[i] == Code(structure[i]).value
      {
        if i > 0 { assert structure[i] == structure[1..][i - 1]; }
      }
    }
  }

  lemma {:induction false} JoinCounts(parts: seq<string>, structure: seq<string>)
    requires |parts| == |structure|
    requires forall i :: 0 <= i < |parts| ==> Known(structure[i]) && parts[i] == Code(structure[i]).value
    ensures Occurrences(Join(parts, 'x'), 'x') == if parts == [] then 0 else |parts| - 1
    ensures |Join(parts, 'x')| == ValueCount(structure) + (if parts == [] then 0 else |parts| - 1)
  {
    if parts != [] {
      CodeShape(structure[0]);
      if |parts| > 1 {
        JoinCounts(parts[1..], structure[1..]);
        OccurrencesAppend(parts[0] + ['x'], Join(parts[1..], 'x'), 'x');
        OccurrencesAppend(parts[0], ['x'], 'x');
      } else {
        assert structure[1..] == [];
      }
    }
  }

  /**
   * The layout of a successfully built record: one pad byte between adjacent tags and, besides
   * those, one format code per value, so a record holds ValueCount(structure) values.
   */
  lemma CompileLayout(structure: seq<string>)
    requires Compile(structure).Ok?
    ensures Occurrences(Compile(structure).value, 'x') == if structure == [] then 0 else |structure| - 1
    ensures |Compile(structure).value| - Occurrences(Compile(structure).value, 'x') == ValueCount(structure)
  {
    CodesShape(structure);
    JoinCounts(Codes(structure).value, structure);
  }

  /** A record of one `string` and one `integer` field has 256 values and a single pad byte. */
  lemma StringIntegerLayout()
    ensures Compile(["string", "integer"]) == Ok(Repeat('c', 255) + "xi")
    ensures ValueCount(["string", "integer"]) == 256
  {
    var t := ["integer"];
    assert t[1..] == [];
    assert Codes(t) == Ok(["i"] + []);
    assert ["i"] + [] == ["i"];
    var s := ["string", "integer"];
    assert s[1..] == t;
    assert Codes(s) == Ok([Repeat('c', 255)] + ["i"]);
    assert [Repeat('c', 255)] + ["i"] == [Repeat('c', 255), "i"];
    var p := [Repeat('c', 255), "i"];
    assert p[1..] == ["i"];
    assert Join(p, 'x') == Repeat('c', 255) + "x" + "i";
    assert Repeat('c', 255) + "x" + "i" == Repeat('c', 255) + "xi";
  }
}
