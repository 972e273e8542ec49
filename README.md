# Fixed-record binary files and a tiny line interpreter, in Dafny

This project models two small stateful Python components and proves properties of the model.

**`StructuredFile`** (helper.py) reads and writes a binary file as an array of fixed-width
records. It keeps one byte cursor. The model is the class `StructuredFiles.StructuredFile`.
Its fields are the file's bytes (`bytes: seq<bv8>`), the byte cursor (`cur: nat`), the struct
format string and the record width `W > 0`. Record `p` is the `W` bytes at offset `p * W`.
The struct codec is left abstract, so a record is the raw bytes it packs to. The model covers:

- how the record layout is built from the field-type tags (module `Layout`);
- how `seek` resolves a position in its three modes, including the redirect of negative
  absolute positions to `tail`. This is stated once as the reference function
  `Addressing.SeekTarget`; the `Seek` method, which recurses through `Tail` as the source does,
  is proved equal to it;
- the record arithmetic of `tell`, `eof` and `__len__`;
- in-place writes, slice expansion (`slice.indices` followed by `range`), iteration that stops
  on a short read, and the save/seek/scan/restore pattern of `__contains__`.

**`run`** (machine.py) interprets a text file line by line. The class `Machine.Interpreter`
holds what `run`'s closures share: the `variables` table and the line cursor `pc` of the file.
Its methods `Assign`, `Increment`, `Invert` and `Translate` change the table or the cursor in
place. `Machine.Step` (one statement) and `Machine.Exec` (a whole run) state the same behaviour
as functions. `Machine.Run` is the driving loop, proved equal to `Exec`. A program can loop
forever, so `Run` and `Exec` take a budget `fuel`: the most lines they execute.

Behaviour of the source worth knowing, which the model keeps:

- `__contains__` restores the cursor only when the item is not found (helper.py:118-122). When
  it is found, the cursor stays just past the first matching record. When the scan started past
  the last whole record, the restoring `seek(p)` itself raises IndexError.
- `seek(-1)` resolves as `seek(-1, 2)`, that is `tail(1)` (helper.py:48-50); `seek(1, 2)` is
  rejected with IndexError.
- The pad byte `x` goes between adjacent *tags*, not between all fields (helper.py:17). The 255
  `c` fields of a `string` tag have no pads between them.
- Negative indices count back from the end of the *bytes*. With a partial trailing record they
  therefore do not land on a record boundary (`Addressing.NegativeIndexUnaligned`).
- A `->` on a defined, non-zero variable rewinds the file before it evaluates its target
  (machine.py:20-21). When the target is an undefined name, the run raises KeyError with the
  cursor at line 0; any other raising line leaves the cursor just past itself.

## Model

| member | source | states |
|---|---|---|
| `Layout.Code` | helper.py:3-12 | defines the `types` table, tag to struct format codes; `Layout.CodeShape` describes it |
| `Layout.Compile` | helper.py:17 | defines the format string `"x".join([types[t] for t in structure])`; `Layout.CompileFailsOnFirstUnknown`, `Layout.CompileLayout` and `Layout.StringIntegerLayout` describe it |
| `Layout.CompileFailsOnFirstUnknown` | helper.py:3-17 | building the format fails exactly when some tag is missing from the `types` table, and then with the first such tag (the KeyError) |
| `Layout.CompileLayout` | helper.py:3-17 | a built format has one `x` pad byte between adjacent tags, and besides those one code per value: #non-string tags + 255 per `string` tag |
| `Layout.StringIntegerLayout` | helper.py:3-17 | `('string', 'integer')` compiles to 255 `c` codes, one pad and `i`: 256 values |
| `Layout.CodeShape` | helper.py:3-12 | no format code in the table is a pad byte, and each tag has one code per value |
| `Addressing.Negate` | helper.py:59-63 | unary minus as `backward`/`tail` apply it: an int is negated, any other value stays a non-int |
| `Addressing.SeekTarget` | helper.py:36-54 | defines where `seek(position, mode)` puts the byte cursor, or which exception it raises; `Addressing.SeekInBounds`, `SeekAbsolute`, `SeekRelative`, `SeekFromEnd`, `NegativeRedirect`, `SeekRejects` and `ModesAgree` describe it |
| `Addressing.SeekInBounds` | helper.py:36-54 | every accepted seek leaves the cursor within the file; an absolute one leaves room for a whole record after it |
| `Addressing.SeekAbsolute` | helper.py:39-54 | `seek(p)` succeeds exactly for -len < p < len; p >= 0 lands at p*W, negative p at size + p*W; every failure is IndexError |
| `Addressing.SeekAbsoluteBoundaries` | helper.py:39-54 | `seek(len)`, `seek(-len)` and `seek(-len-1)` raise IndexError, as do `seek(0)` on an empty file and `seek(-1)` on a one-record file |
| `Addressing.SeekRelative` | helper.py:42-57 | `seek(p, 1)` succeeds exactly when 0 <= tell()+p < len, lands at cur + p*W and moves tell() by exactly p; a failure is IndexError |
| `Addressing.SeekFromEnd` | helper.py:45-54 | `seek(p, 2)` succeeds exactly for -len < p <= 0 and lands at size + p*W; a failure is IndexError |
| `Addressing.NegativeRedirect` | helper.py:48-50 | a negative absolute seek resolves exactly as the from-end seek of the same value (`tail(-p)`) |
| `Addressing.SeekRejects` | helper.py:37-52 | a mode other than 0, 1, 2 raises IndexError; a non-int position raises TypeError in every mode |
| `Addressing.ModesAgree` | helper.py:39-57 | `seek(i)` lands where `seek(0)` followed by `forward(i)` lands, for every record i |
| `Addressing.NegativeIndexAligned` | helper.py:48-54 | in a file of whole records, `seek(-k)` for 0 < k < len lands at record len - k |
| `Addressing.NegativeIndexUnaligned` | helper.py:48-54 | with a partial trailing record, `seek(-1)` lands inside a record (byte 7 of an 11-byte file of 4-byte records) |
| `Addressing.Range` | helper.py:98 | `range(a, b, s)` is a, a+s, a+2s, ... all strictly before b, and the next element would pass b |
| `Addressing.Bound` | helper.py:98 | defines how `slice.indices` clamps one bound: negative counts from the end, clamped to the step's lower and upper bound, None takes the default; `Addressing.ExpandShape` and `Addressing.ExpandExamples` describe it |
| `Addressing.Indices` | helper.py:98 | defines `slice.indices(len)`: ValueError for a zero step, otherwise the clamped start, stop and step; `Addressing.ExpandShape` and `Addressing.ExpandExamples` describe it |
| `Addressing.ExpandShape` | helper.py:96-110 | `range(*slice.indices(len))` fails only for step 0 (ValueError); otherwise every index is a record of the file and consecutive indices differ by the step |
| `Addressing.ExpandExamples` | helper.py:98 | on four records, `[1:3]` gives [1, 2], `[0:2]` gives [0, 1], `[::-1]` gives [3, 2, 1, 0], `[-2:10]` gives [2, 3]; an empty file gives [] |
| `RecordBytes.Overwrite` | helper.py:27-28 | a write at offset `at` replaces exactly the bytes [at, at+W), keeps every other byte, and grows the file only past its end |
| `RecordBytes.Records` | helper.py:87-91 | the file holds size div W whole records, record p being the W bytes at p*W; a partial trailing record is not counted |
| `RecordBytes.RecordsFrom` | helper.py:74-79 | defines the records that successive W-byte reads from offset `at` return until a short read; `RecordBytes.RecordsFromAligned` describes it |
| `RecordBytes.RecordsFromAligned` | helper.py:74-79 | reading from the start of record i yields exactly len - i records, namely records i, i+1, ..., len-1 |
| `RecordBytes.OverwriteRecord` | helper.py:106-113 | overwriting record p changes record p and no other record, nor the trailing partial record |
| `RecordBytes.AppendRecord` | helper.py:27-28 | a write at the end of a file of whole records appends one record, so len grows by exactly one |
| `RecordBytes.Fill` | helper.py:108-110 | writing the same record at every listed index makes each listed record that record and leaves every other record and the trailing bytes alone |
| `RecordBytes.FillExample` | helper.py:108-110 | on records [A, B, C, D], writing V at [0, 1] leaves [V, V, C, D] |
| `RecordBytes.Pick` | helper.py:98 | the slice result has one record per index, the record at that index, in order |
| `RecordBytes.PickExample` | helper.py:98 | on records [A, B, C, D], the records at [1, 2] are [B, C] |
| `RecordBytes.FirstIndex` | helper.py:118-120 | the scan stops at the first record equal to the item, and finds none exactly when the item is not a record |
| `StructuredFiles.Open` | helper.py:16-19 | an unknown tag raises KeyError; otherwise a fresh file with the compiled format, the given bytes and the cursor at 0 |
| `StructuredFiles.StructuredFile.constructor` | helper.py:16-19 | a new file has the format, the width, the bytes and cursor 0 |
| `StructuredFiles.StructuredFile.Tell` | helper.py:65-66 | tell() is the index of the record the cursor is in: t*W <= cur < t*W + W |
| `StructuredFiles.StructuredFile.Eof` | helper.py:68-69 | eof() holds exactly when the cursor is at or past the end of the last whole record |
| `StructuredFiles.StructuredFile.Length` | helper.py:87-91 | len() is the number of whole records, and the cursor and bytes are as before |
| `StructuredFiles.StructuredFile.Seek` | helper.py:36-54 | the returned offset and the new cursor are those of `SeekTarget`; a rejected seek leaves the cursor unchanged; bytes never change |
| `StructuredFiles.StructuredFile.Forward` | helper.py:56-57 | `forward(p)` is `seek(p, 1)` |
| `StructuredFiles.StructuredFile.Backward` | helper.py:59-60 | `backward(p)` is `seek(-p, 1)` |
| `StructuredFiles.StructuredFile.Tail` | helper.py:62-63 | `tail(p)` is `seek(-p, 2)` |
| `StructuredFiles.StructuredFile.Read` | helper.py:30-31 | a whole record at the cursor is returned and the cursor moves past it; otherwise struct.error, with the cursor at the end of the data |
| `StructuredFiles.StructuredFile.Write` | helper.py:27-28 | the record overwrites the W bytes at the cursor, and the cursor ends just after them |
| `StructuredFiles.StructuredFile.Iterate` | helper.py:74-79 | iteration yields the records that successive reads from the cursor give, then stops without raising, the cursor at the end of the data |
| `StructuredFiles.StructuredFile.GetItem` | helper.py:96-101 | an int reads record p (negative: counted from the end), failing as `seek` fails; a slice returns the records at its indices in order, the cursor after the last one |
| `StructuredFiles.StructuredFile.GetRecords` | helper.py:98 | `[self[p] for p in idx]` returns the records at idx in order and leaves the cursor after the last one |
| `StructuredFiles.StructuredFile.SetItem` | helper.py:106-113 | an int overwrites exactly the record `seek` lands on, the cursor ending after it; a slice writes the same record at each of its indices |
| `StructuredFiles.StructuredFile.SetRecords` | helper.py:108-110 | `for p in idx: self[p] = data` leaves the bytes `Fill` describes and the cursor after the last index |
| `StructuredFiles.StructuredFile.Contains` | helper.py:115-122 | an empty file raises IndexError; a found item returns True with the cursor just past its first match; otherwise the cursor is restored to tell()*W and False returned, or IndexError when tell() was len |
| `StructuredFiles.StructuredFile.Scan` | helper.py:118-120 | the loop finds the item exactly when it is a record, stopping just past its first occurrence, else at the end of the data |
| `StructuredFiles.StructuredFile.Enter` | helper.py:124-126 | `__enter__` moves the cursor to record 0, raising IndexError on an empty file |
| `Tokens.Split` | machine.py:42-43 | `line.split()` returns only non-empty, whitespace-free tokens; `Tokens.SplitToken` and `Tokens.SplitAtSpace` fix its result on every line |
| `Tokens.SplitToken` | machine.py:42-43 | a single non-empty, whitespace-free word splits into itself |
| `Tokens.SplitAtSpace` | machine.py:42-43 | any whitespace character separates: `a + c + b` splits into the tokens of `a` followed by those of `b`, so leading, trailing and repeated whitespace and the line's newline give no tokens |
| `Tokens.SplitUnsplit` | machine.py:42-43 | splitting tokens joined by single spaces gives back exactly those tokens |
| `Tokens.SplitExample` | machine.py:42-46 | `"x -> 3"` and `"x -> 3\n"` split into `["x", "->", "3"]`, and a blank line into no tokens |
| `Tokens.IsDigits` | machine.py:5 | defines `var.isdigit()` for ASCII digits: non-empty and made of digits only; `Machine.Get` and `Tokens.DigitsValueShow` use it |
| `Tokens.DigitsValue` | machine.py:6 | defines `int(var)` on a digit string, most significant digit first; `Tokens.DigitsValueShow` describes it |
| `Tokens.DigitsValueShow` | machine.py:4-6 | `int(str(n)) == n` for every natural n, so every non-negative literal reads back as itself |
| `Machine.Get` | machine.py:4-7 | `get(v)` fails exactly for an undefined name that is not all digits (KeyError); a negative result is always a stored variable, never a literal |
| `Machine.Step` | machine.py:24-40 | defines what `interprete` does to the table, what it returns, where it jumps, or which exception it raises, in the source's order of evaluation; `Machine.AssignSetsOnly`, `IncrementAddsOne`, `InvertTwice`, `JumpOnlyMoves`, `RewindsOnlyToJump`, `StepShape` and `ShortStatement` describe it |
| `Machine.AssignSetsOnly` | machine.py:9-11 | `var = value` succeeds exactly when `get(value)` does, sets var to it, returns it, adds no key but var and changes no other variable |
| `Machine.IncrementAddsOne` | machine.py:15-17 | `var +` raises KeyError for an undefined var, else adds exactly one and returns the new value |
| `Machine.InvertTwice` | machine.py:12-14 | `var !` returns the negated value, and two in a row restore the table |
| `Machine.JumpOnlyMoves` | machine.py:18-22 | `var -> n` never changes variables or prints a value; it jumps to `get(n)` exactly when var is defined and non-zero, and falls through on zero |
| `Machine.StepShape` | machine.py:24-40 | only `->` jumps, only `=`, `+`, `!` return a value, and an unknown operator changes nothing |
| `Machine.RewindsOnlyToJump` | machine.py:18-22 | a `->` that reaches `file.seek(0)` either jumps or raises KeyError for its undefined target; any other `->` never jumps |
| `Machine.ShortStatement` | machine.py:30-31 | a line with fewer than two tokens raises IndexError |
| `Machine.Landing` | machine.py:20-22 | after `seek(0)` and n `readline()` calls on a file of L lines, the cursor is at line n clamped to [0, L] |
| `Machine.Exec` | machine.py:45-46 | defines the `for line in file` loop: the table, cursor, printed outputs and ending of a run of at most `fuel` lines; a raising line leaves the cursor past itself, or at 0 after a rewind; `Machine.ExecTrace`, `ExecFuel`, `JumpPastEnd` and the examples describe it |
| `Machine.ExecTrace` | machine.py:45-46 | a run prints at most one output per line of its budget; a run that used its whole budget printed exactly fuel outputs; a halted run ends with the cursor just past the last line |
| `Machine.LinesPerOutput` | machine.py:45-46 | each executed line prints exactly one output: a run that halted or raised executed one line per output, plus the line that raised |
| `Machine.ExecFuel` | machine.py:45-46 | a run that ended within its budget ends the same way with any larger budget |
| `Machine.JumpPastEnd` | machine.py:18-22 | a taken jump to a line at or past the end ends the run right after it, cleanly, with unchanged variables |
| `Machine.JumpPastEndExample` | machine.py:45-46 | `x = 1`, `x -> 9`, `x +` prints 1 and None and halts with x = 1 |
| `Machine.FailedJumpExample` | machine.py:18-22 | `x = 1`, `x -> y` with `y` undefined prints 1 and raises KeyError, with the cursor rewound to line 0 |
| `Machine.EndlessLoopExample` | machine.py:45-46 | `x = 1`, `x -> 0` never halts: every budget runs out |
| `Machine.Interpreter.constructor` | machine.py:1-2 | a run starts with an empty variable table and the cursor at line 0 |
| `Machine.Interpreter.Assign` | machine.py:9-11 | `assing` stores `get(value)` under var and returns it; on KeyError nothing changes |
| `Machine.Interpreter.Invert` | machine.py:12-14 | `invert` replaces var by its negation and returns it; KeyError for an undefined var |
| `Machine.Interpreter.Increment` | machine.py:15-17 | `increment` adds one to var and returns it; KeyError for an undefined var |
| `Machine.Interpreter.Translate` | machine.py:18-22 | a non-zero var rewinds the file and reads `get(position)` lines, leaving the cursor at `Landing`; a zero var leaves it; KeyError for an undefined var |
| `Machine.Interpreter.Interprete` | machine.py:24-40 | the statement changes the table and cursor and returns exactly what `Step` says; a raising statement leaves the table, and leaves the cursor unless it rewound the file, which puts it at 0 |
| `Machine.Run` | machine.py:45-46 | the final table, the final cursor, the printed outputs and the way the run ends are those of `Exec` from an empty table at line 0 |

## Left out

- The struct codec (`normalize`/`denormalize`, helper.py:21-25) is left out. It packs IEEE floats, and the width and alignment of its codes depend on the platform. Records are raw W-byte values, and `__contains__` is modelled as comparing bytes, not decoded tuples. On a file not written by this class's own `pack`, `Contains` can then answer False where `__contains__` answers True. This happens because pad bytes (`x` and native alignment padding) are never decoded, because `?` decodes any non-zero byte as True, and because NaN and -0.0 compare differently as floats than as bytes.
- The record width is a parameter of `Open` and must be positive. The layout of `struct.calcsize` is not derived from the format. An empty structure has width 0, and every later `//` raises ZeroDivisionError. That case is not modelled.
- StructuredFiles.StructuredFile.Write: takes bytes that already have the record's length, so a tuple that fails to pack (struct.error) is not modelled.
- StructuredFiles.StructuredFile.SetItem: takes bytes that already have the record's length, for the same reason as `Write`.
- StructuredFiles.StructuredFile.Iterate: returns all records at once. The generator's laziness is not modelled, so neither is a consumer that interleaves other operations. The bare `except` is modelled only for the short read that ends the data. `__contains__`, which stops early, is modelled with its own loop.
- Positions are ints, slices or other values. Python bools (which are ints) and objects with `__index__` are not distinguished. Slice bounds are ints or None.
- Opening and closing files, open modes (an append mode would write at the end whatever the cursor), `close`, `__exit__`, `__repr__`, `__str__`, `__length_hint__` and `__missing__` (helper.py:71-72, 81-94, 103-104, 128-129) are file glue or never called. They are not modelled.
- The demos (helper.py:131-133) and the `open('sumator.mat')` driver (machine.py:48-49) are I/O only.
- `print` in `run` (machine.py:46) becomes the returned trace of outputs.
- Machine.Run: executes at most `fuel` lines, because an interpreted program need not halt. A run that exhausts the budget ends with OutOfFuel, which has no counterpart in the source.
- Text-file reads in `translate` are modelled as the line cursor `pc` counting lines. Python's read-ahead buffering is not modelled.
- Tokens.IsDigits: `str.isdigit` in `get` is modelled for ASCII digits only; other Unicode digits are not modelled.
- Tokens.DigitsValue: `int` in `get` is modelled for ASCII digits only. Other Unicode digits, some of which make `int` raise ValueError, are not modelled.
