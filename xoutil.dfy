/**
 A model of package xoutil: the `SqTime` adapter that scans the timestamp
 values produced by the go-sqlite3 driver into a time instant, and hands the
 instant back to the driver for parameter binding.

 Two things the package relies on but does not own are taken as parameters:
 the driver's ordered list of timestamp layouts (`formats`) and the time
 library's layout parser (`timeParse`), which either yields an instant or
 fails.
 */
module XoUtil {

  /** The conventional optional value. */
  datatype Option<+T> = None | Some(value: T)

  /** A byte of a Go byte slice. */
  newtype byte = b: int | 0 <= b < 256

  /** A point in time; its representation is owned by the time library. */
  type Instant(==)

  /** A Go string: a sequence of bytes, written here with one character per byte. */
  type ByteString = s: string | IsByteString(s)

  /** A timestamp layout, as the time library understands it. */
  type Format = ByteString

  /** The time library's layout parser: `Some(z)` when `s` parses in layout `f`. */
  type TimeParser = (Format, ByteString) -> Option<Instant>

  /** The dynamically typed value the database layer hands to Scan. */
  datatype Input =
    | Bytes(bytes: seq<byte>)
    | Str(text: ByteString)
    | Other(typeName: string)

  /** The two error kinds of the adapter. */
  datatype Err =
    | TypeMismatch(typeName: string)  // "cannot convert type ... to time.Time"
    | ParseFailed                     // "could not parse time"

  /** Go's `error` result: nil (Pass) or an error. */
  datatype Outcome = Pass | Fail(error: Err)

  /** The receiver's instant after a call, together with what the call returned. */
  datatype Scanned = Scanned(t: Instant, outcome: Outcome)

  // ---------------------------------------------------------------------------
  // Go strings are byte strings. A Go string is modelled as a Dafny string that
  // carries one character per byte; `string(x)` on a byte slice copies the bytes.
  // ---------------------------------------------------------------------------

  /** Every character stands for one byte. */
  predicate IsByteString(s: string) {
    forall i :: 0 <= i < |s| ==> s[i] as int < 256
  }

  /** Go's conversion `string(x)` of a byte slice `x`. */
  function BytesToString(x: seq<byte>): (s: ByteString)
    ensures |s| == |x|
    ensures forall i :: 0 <= i < |x| ==> s[i] as int == x[i] as int
  {
    seq(|x|, i requires 0 <= i < |x| => (x[i] as int) as char)
  }

  /** The inverse of BytesToString, used to state the round trips. */
  function StringToBytes(s: ByteString): (x: seq<byte>)
    ensures |x| == |s|
    ensures forall i :: 0 <= i < |s| ==> x[i] as int == s[i] as int
  {
    seq(|s|, i requires 0 <= i < |s| => s[i] as int as byte)
  }

  /** Converting bytes to a string and back gives the original bytes. */
  lemma BytesRoundTrip(x: seq<byte>)
    ensures StringToBytes(BytesToString(x)) == x
  {
  }

  /** Converting a byte string to bytes and back gives the original string. */
  lemma StringRoundTrip(s: ByteString)
    ensures BytesToString(StringToBytes(s)) == s
  {
  }

  /** The conversion loses nothing: distinct byte slices give distinct strings. */
  lemma BytesToStringInjective(x: seq<byte>, y: seq<byte>)
    ensures BytesToString(x) == BytesToString(y) <==> x == y
  {
  }

  // ---------------------------------------------------------------------------
  // The specification of the inbound conversion.
  // ---------------------------------------------------------------------------

  /** The index of the first layout in `formats` that parses `s`, if any. */
  function FirstMatch(formats: seq<Format>, s: ByteString, timeParse: TimeParser): (r: Option<nat>)
    ensures r.Some? ==> r.value < |formats| && timeParse(formats[r.value], s).Some?
    ensures r.Some? ==> forall j :: 0 <= j < r.value ==> timeParse(formats[j], s).None?
    ensures r.None? <==> forall j :: 0 <= j < |formats| ==> timeParse(formats[j], s).None?
  {
    if |formats| == 0 then None
    else if timeParse(formats[0], s).Some? then Some(0)
    else match FirstMatch(formats[1..], s, timeParse)
      case None => None
      case Some(k) => Some(k + 1)
  }

  /** The least index whose layout parses `s` is what FirstMatch finds. */
  lemma FirstMatchIsLeast(formats: seq<Format>, s: ByteString, timeParse: TimeParser, k: nat)
    requires k < |formats| && timeParse(formats[k], s).Some?
    requires forall j :: 0 <= j < k ==> timeParse(formats[j], s).None?
    ensures FirstMatch(formats, s, timeParse) == Some(k)
  {
  }

  /** What `parse(s)` leaves in a receiver holding `cur`, and what it returns. */
  function ParseText(s: ByteString, cur: Instant, formats: seq<Format>, timeParse: TimeParser): (r: Scanned)
    ensures r.t == cur || exists k :: 0 <= k < |formats| && timeParse(formats[k], s) == Some(r.t)
    ensures r.outcome.Fail? ==> r.t == cur
  {
    if s == "" then Scanned(cur, Pass)
    else match FirstMatch(formats, s, timeParse)
      case Some(k) => Scanned(timeParse(formats[k], s).value, Pass)
      case None => Scanned(cur, Fail(ParseFailed))
  }

  /** What `Scan(v)` leaves in a receiver holding `cur`, and what it returns. */
  function ScanInput(v: Input, cur: Instant, formats: seq<Format>, timeParse: TimeParser): (r: Scanned)
    ensures r.outcome.Fail? ==> r.t == cur
    ensures v.Other? <==> r.outcome.Fail? && r.outcome.error.TypeMismatch?
  {
    match v
    case Bytes(x) => ParseText(BytesToString(x), cur, formats, timeParse)
    case Str(s) => ParseText(s, cur, formats, timeParse)
    case Other(name) => Scanned(cur, Fail(TypeMismatch(name)))
  }

  // ---------------------------------------------------------------------------
  // Properties of the inbound conversion.
  // ---------------------------------------------------------------------------

  /** The empty string is "no value": success, and the receiver keeps whatever it held. */
  lemma ParseEmpty(cur: Instant, formats: seq<Format>, timeParse: TimeParser)
    ensures ParseText("", cur, formats, timeParse) == Scanned(cur, Pass)
  {
  }

  /** A successful parse of non-empty text stores the instant of the first layout that parses it. */
  lemma ParseStoresFirstMatch(s: ByteString, cur: Instant, formats: seq<Format>, timeParse: TimeParser)
    requires s != "" && ParseText(s, cur, formats, timeParse).outcome.Pass?
    ensures exists k :: 0 <= k < |formats| && timeParse(formats[k], s) == Some(ParseText(s, cur, formats, timeParse).t)
                        && forall j :: 0 <= j < k ==> timeParse(formats[j], s).None?
  {
  }

  /** When no layout parses non-empty text, parse fails with ParseFailed and the receiver is unchanged. */
  lemma ParseNoMatch(s: ByteString, cur: Instant, formats: seq<Format>, timeParse: TimeParser)
    requires s != ""
    requires forall j :: 0 <= j < |formats| ==> timeParse(formats[j], s).None?
    ensures ParseText(s, cur, formats, timeParse) == Scanned(cur, Fail(ParseFailed))
  {
  }

  /** parse succeeds exactly when the text is empty or some layout parses it. */
  lemma ParseSucceedsIff(s: ByteString, cur: Instant, formats: seq<Format>, timeParse: TimeParser)
    ensures ParseText(s, cur, formats, timeParse).outcome.Pass?
        <==> s == "" || exists j :: 0 <= j < |formats| && timeParse(formats[j], s).Some?
  {
  }

  /** A failed parse leaves the receiver as it was and reports ParseFailed. */
  lemma ParseFailureKeepsReceiver(s: ByteString, cur: Instant, formats: seq<Format>, timeParse: TimeParser)
    requires ParseText(s, cur, formats, timeParse).outcome.Fail?
    ensures ParseText(s, cur, formats, timeParse) == Scanned(cur, Fail(ParseFailed))
  {
  }

  /** Scanning a byte slice behaves exactly as scanning the string with those bytes. */
  lemma ScanBytesAsString(x: seq<byte>, cur: Instant, formats: seq<Format>, timeParse: TimeParser)
    ensures ScanInput(Bytes(x), cur, formats, timeParse) == ScanInput(Str(BytesToString(x)), cur, formats, timeParse)
  {
  }

  /** Scanning a byte string as bytes behaves exactly as scanning it as a string. */
  lemma ScanStringAsBytes(s: ByteString, cur: Instant, formats: seq<Format>, timeParse: TimeParser)
    ensures ScanInput(Str(s), cur, formats, timeParse) == ScanInput(Bytes(StringToBytes(s)), cur, formats, timeParse)
  {
    StringRoundTrip(s);
  }

  /** Any other representation is a type mismatch naming its type, and the receiver is unchanged. */
  lemma ScanOtherMismatch(name: string, cur: Instant, formats: seq<Format>, timeParse: TimeParser)
    ensures ScanInput(Other(name), cur, formats, timeParse) == Scanned(cur, Fail(TypeMismatch(name)))
  {
  }

  /** The representations Scan accepts as "no value": empty bytes and the empty string. */
  predicate IsAbsent(v: Input) {
    (v.Bytes? && v.bytes == []) || (v.Str? && v.text == "")
  }

  /** Scan changes the receiver only when it succeeds on non-empty text. */
  lemma ScanChangesOnlyOnSuccess(v: Input, cur: Instant, formats: seq<Format>, timeParse: TimeParser)
    requires ScanInput(v, cur, formats, timeParse).t != cur
    ensures ScanInput(v, cur, formats, timeParse).outcome == Pass
    ensures v.Bytes? || v.Str?
    ensures v.Str? ==> v.text != ""
    ensures v.Bytes? ==> v.bytes != []
  {
  }

  // ---------------------------------------------------------------------------
  // The adapter itself.
  // ---------------------------------------------------------------------------

  /** `SqTime`: a time instant that the database layer scans into and binds from. */
  class SqTime {
    /** The wrapped instant. */
    var t: Instant
    /** How many times `t` has been assigned since construction. */
    ghost var stores: nat

    constructor (t0: Instant)
      ensures t == t0 && stores == 0
    {
      t := t0;
      stores := 0;
    }

    /** Value: the wrapped instant itself, and never an error. */
    function Value(): (r: (Instant, Outcome))
      reads this
      ensures r.0 == t && r.1 == Pass
    {
      (t, Pass)
    }

    /**
     parse: the empty string is "no value"; otherwise the layouts are tried
     in order and the first that parses is stored. `tried` records, in order,
     the layouts handed to the parser.
     */
    method Parse(s: ByteString, formats: seq<Format>, timeParse: TimeParser) returns (err: Outcome, ghost tried: seq<Format>)
      modifies this
      ensures Scanned(t, err) == ParseText(s, old(t), formats, timeParse)
      ensures stores == old(stores) + (if s != "" && err == Pass then 1 else 0)
      ensures s == "" ==> tried == []
      ensures s != "" && err == Pass ==> tried == formats[..FirstMatch(formats, s, timeParse).value + 1]
      ensures s != "" && err == Pass ==> Some(t) == timeParse(tried[|tried| - 1], s)
      ensures err != Pass ==> tried == formats
    {
      tried := [];
      if s == "" {
        return Pass, tried;
      }
      for i := 0 to |formats|
        invariant tried == formats[..i]
        invariant t == old(t) && stores == old(stores)
        invariant forall j :: 0 <= j < i ==> timeParse(formats[j], s).None?
        invariant FirstMatch(formats, s, timeParse).None? || i <= FirstMatch(formats, s, timeParse).value
      {
        var z := timeParse(formats[i], s);
        tried := tried + [formats[i]];
        if z.Some? {
          t := z.value;
          stores := stores + 1;
          FirstMatchIsLeast(formats, s, timeParse, i);
          return Pass, tried;
        }
      }
      return Fail(ParseFailed), tried;
    }

    /** Scan: dispatch on the representation of `v`; bytes and strings are parsed, anything else is refused. */
    method Scan(v: Input, formats: seq<Format>, timeParse: TimeParser) returns (err: Outcome)
      modifies this
      ensures Scanned(t, err) == ScanInput(v, old(t), formats, timeParse)
      ensures stores == old(stores) + (if err == Pass && !IsAbsent(v) && !v.Other? then 1 else 0)
    {
      ghost var tried;
      match v
      case Bytes(x) =>
        err, tried := Parse(BytesToString(x), formats, timeParse);
      case Str(s) =>
        err, tried := Parse(s, formats, timeParse);
      case Other(name) =>
        err := Fail(TypeMismatch(name));
    }
  }
}
