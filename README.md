# xoutil `SqTime` in Dafny

Package xoutil defines one type, `SqTime`, a `time.Time` that can be read from
and bound to an SQLite database through Go's `database/sql` interfaces.
`SqTime.Scan` accepts only two representations of a column value: a `[]byte`
and a `string`, holding text in one of the go-sqlite3 driver's timestamp
layouts. Bytes are read as a string. The empty string means "no value" and is
accepted without touching the receiver. Otherwise the driver's layouts are
tried in order and the first one that parses wins. Any other representation is
a type mismatch; that includes a `time.Time` handed over as it is, and `nil`
for SQL NULL. Text that no layout parses is a parse error. On either error the
receiver keeps its value. `SqTime.Value` hands the wrapped instant back
unchanged.

The model is the module `XoUtil` in `xoutil.dfy`:

- `SqTime` is a class with the mutable field `t`, as the Go receiver `*t` is
  assigned in place. A ghost counter `stores` records every assignment to `t`,
  so that "written once on success, and never otherwise" can be stated.
- The inputs the driver may hand over are the datatype `Input`
  (`Bytes`, `Str`, `Other(typeName)`; `nil` for SQL NULL is an `Other`); errors are `Err`
  (`TypeMismatch(typeName)`, `ParseFailed`); Go's `error` result is `Outcome`
  (`Pass` for nil, `Fail(e)`).
- The time library's `time.Parse` is the parameter `timeParse` of type
  `TimeParser = (Format, ByteString) -> Option<Instant>`, and the driver's
  `sqlite3.SQLiteTimestampFormats` is the parameter `formats: seq<Format>`.
  Every property is proved for every parser and every layout list.
- A Go string is a byte string. The model writes it as `ByteString`, a Dafny
  string whose every character has a code below 256, one character per byte.
  Go's `string(x)` on a byte slice is `BytesToString`, and `StringToBytes` is
  its inverse.
- `FirstMatch`, `ParseText` and `ScanInput` are the specification functions.
  The methods `SqTime.Parse` and `SqTime.Scan` are proved to produce exactly the
  receiver and result those functions give. The lemmas state the adapter's
  properties about those functions.

## Model

| member | source | states |
|---|---|---|
| XoUtil.SqTime.Value | xoutil.go:20-22 | Returns the wrapped instant itself, and the error part is always nil (`Pass`). |
| XoUtil.SqTime.Scan | xoutil.go:25-35 | The new receiver and the returned error are those of `ScanInput` on the old receiver. The receiver is assigned exactly once when non-empty bytes or a non-empty string scan without error, and never otherwise. |
| XoUtil.SqTime.Parse | xoutil.go:38-52 | The new receiver and result are those of `ParseText`. The receiver is assigned exactly once on success with non-empty text, and never otherwise. Empty text hands nothing to the parser. The layouts handed to the parser are recorded in order: none for empty text; on success exactly the prefix of the list up to and including the first layout that parses, and the stored instant is what that last layout gives; on failure the whole list. |
| XoUtil.ParseText | xoutil.go:38-51 | The reference meaning of parse: the resulting receiver is either the old one or the instant some layout gives for the text, and a failure never changes it. |
| XoUtil.ScanInput | xoutil.go:25-35 | The reference meaning of Scan: a failure never changes the receiver, and the input is of another type exactly when the result is a type mismatch. |
| XoUtil.StringToBytes | xoutil.go:28 | The inverse of the `string(x)` conversion on this line (the package itself never converts a string to bytes): same length, and byte `i` has the code of character `i`. It exists to state the round trips and `ScanStringAsBytes`. |
| XoUtil.SqTime.constructor | xoutil.go:17 | A receiver holding a given instant, with no assignments recorded yet. |
| XoUtil.BytesToString | xoutil.go:28 | `string(x)` copies the bytes: same length, and character `i` has the code of byte `i`. |
| XoUtil.BytesRoundTrip | xoutil.go:28 | Converting bytes to a string and back yields the original bytes. |
| XoUtil.StringRoundTrip | xoutil.go:28 | Converting a byte string to bytes and back yields the original string. |
| XoUtil.BytesToStringInjective | xoutil.go:28 | Two byte slices give the same string if and only if they are equal. |
| XoUtil.FirstMatch | xoutil.go:43-49 | Returns the index of a layout that parses `s`, and no earlier layout parses it. It returns none exactly when no layout in the list parses `s`. |
| XoUtil.FirstMatchIsLeast | xoutil.go:43-48 | If layout `k` parses `s` and no earlier layout does, then `k` is the layout chosen. |
| XoUtil.ParseEmpty | xoutil.go:39-41 | Parsing the empty string succeeds and leaves the receiver at its prior value, whatever that was. |
| XoUtil.ParseStoresFirstMatch | xoutil.go:43-48 | After a successful parse of non-empty text, the receiver holds the instant given by some layout `k`. No layout before `k` parses the text. |
| XoUtil.ParseNoMatch | xoutil.go:43-51 | If no layout parses non-empty text, parse fails with `ParseFailed` and the receiver is unchanged. |
| XoUtil.ParseSucceedsIff | xoutil.go:38-51 | Parse succeeds if and only if the text is empty or at least one layout parses it. |
| XoUtil.ParseFailureKeepsReceiver | xoutil.go:38-51 | Every failure of parse is `ParseFailed`, and the receiver is unchanged. |
| XoUtil.ScanBytesAsString | xoutil.go:27-31 | Scanning a byte slice gives the same receiver and error as scanning the string with those bytes. |
| XoUtil.ScanStringAsBytes | xoutil.go:27-31 | Scanning a byte string gives the same receiver and error as scanning its bytes. |
| XoUtil.ScanOtherMismatch | xoutil.go:26-34 | A value that is neither bytes nor a string gives a type mismatch naming its type, and the receiver is unchanged. |
| XoUtil.ScanChangesOnlyOnSuccess | xoutil.go:25-51 | If Scan changes the receiver, then the input was non-empty bytes or a non-empty string and the result is nil. |

## Left out

- The semantics of Go's `time.Parse` (layout syntax, time zones, precision). It belongs to the time library, so it is the parameter `timeParse`.
- The contents and order of `sqlite3.SQLiteTimestampFormats`. They belong to the driver, so the list is the parameter `formats`.
- The text of the error messages built with `fmt.Errorf`, `reflect.TypeOf` and `errors.New`. Only the error kind is kept, and a type mismatch carries the type's name.
- The `driver.Valuer` and `sql.Scanner` interface wiring, and the boxing of the result of `Value` into a `driver.Value`. `Value` returns the instant itself.
- The representation of `time.Time`. `Instant` is an abstract type with equality.
- The zero value of a Go `SqTime`. A receiver is created by the constructor with any starting instant, which includes the zero instant.
- Formatting an instant and scanning the text again. The package has no formatter, so that round trip is not stated.
