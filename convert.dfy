/**
  `convertValue`: a filter argument converted to the type of the field it is compared with.

  The Go function looks at the target's reflected type; here the type is a `TypeTag`. It
  writes the converted value into the target and returns it, except for a `null` pointer
  and a Scanner type, where it returns a new value and leaves the target alone; the result
  says which. Calls into other packages are the parameters in `Env`: `time.Parse`,
  base64 decoding and the `Scan` method of a Scanner type.
*/
module Convert {
  import opened Options
  import opened GoStrings
  import opened GoStrconv

  /** The bit width of a sized integer kind (`int` and `uint` are 64 bits wide). */
  datatype Width = W8 | W16 | W32 | W64

  function IntMin(w: Width): int {
    match w
    case W8 => -0x80
    case W16 => -0x8000
    case W32 => -0x8000_0000
    case W64 => -0x8000_0000_0000_0000
  }

  function IntMax(w: Width): int {
    match w
    case W8 => 0x7F
    case W16 => 0x7FFF
    case W32 => 0x7FFF_FFFF
    case W64 => 0x7FFF_FFFF_FFFF_FFFF
  }

  function UintMax(w: Width): nat {
    match w
    case W8 => 0xFF
    case W16 => 0xFFFF
    case W32 => 0xFFFF_FFFF
    case W64 => 0xFFFF_FFFF_FFFF_FFFF
  }

  /** `reflect.Value.OverflowInt` for a target of width `w`. */
  predicate OverflowInt(x: int, w: Width) {
    x < IntMin(w) || x > IntMax(w)
  }

  /** `reflect.Value.OverflowUint` for a target of width `w`. */
  predicate OverflowUint(x: nat, w: Width) {
    x > UintMax(w)
  }

  /**
    The target types the converter tells apart: `time.Time`, `[]byte`, then by kind the
    strings, booleans, signed and unsigned integers and pointers; any other type is a
    Scanner type (its pointer implements `sql.Scanner`) or unsupported. Both carry the
    type's name as `reflect.Type.String` gives it.
  */
  datatype TypeTag =
    | Time | Bytes
    | Str | Bool | Int(w: Width) | Uint(w: Width) | Ptr(elem: TypeTag)
    | Scanner(name: string) | Other(name: string)

  /** A `time.Time`: an instant and the offset of its zone. */
  datatype Instant = Instant(unixNanos: int, zoneOffset: int)

  /** What a Scanner is asked to scan: the text, or a time parsed from it. */
  datatype ScanArg = ScanText(text: string) | ScanTime(t: Instant)

  /** The converted value; `VNil` is a nil pointer, `VScanner` a new Scanner value after its `Scan`. */
  datatype Value =
    | VString(s: string) | VBool(b: bool) | VInt(i: int) | VUint(u: nat)
    | VBytes(bytes: seq<bv8>) | VTime(t: Instant) | VNil
    | VScanner(typeName: string, scanned: ScanArg)

  /** The type a target of type `t` finally holds, past any pointers. */
  function Pointee(t: TypeTag): TypeTag {
    if t.Ptr? then Pointee(t.elem) else t
  }

  /** The value and whether it was also written into the target (the pointed-to target for a pointer). */
  datatype Converted = Converted(value: Value, setsTarget: bool)

  datatype ConvError =
    | NumErr(e: NumError) | IntOverflow | UintOverflow
    | TimeErr | Base64Err | DateTimeErr(text: string)
    | ScanErr(msg: string) | Unsupported(typeName: string)

  /**
    The calls into other packages: `time.Parse(layout, value)`, `base64.StdEncoding.DecodeString`,
    and `Scan` on a new value of the named Scanner type, which gives its error if any.
  */
  datatype Env = Env(
    timeParse: (string, string) -> Option<Instant>,
    decodeBase64: string -> Option<seq<bv8>>,
    scan: (string, ScanArg) -> Option<string>)

  const RFC3339 := "2006-01-02T15:04:05Z07:00"

  /** `timeFormats`: the layouts `parseTime` tries, in order. */
  const TimeFormats: seq<string> := [
    "Mon Jan _2 15:04:05 2006",              // time.ANSIC
    "Mon Jan _2 15:04:05 MST 2006",          // time.UnixDate
    "Mon Jan 02 15:04:05 -0700 2006",        // time.RubyDate
    "02 Jan 06 15:04 MST",                   // time.RFC822
    "02 Jan 06 15:04 -0700",                 // time.RFC822Z
    "Monday, 02-Jan-06 15:04:05 MST",        // time.RFC850
    "Mon, 02 Jan 2006 15:04:05 MST",         // time.RFC1123
    "Mon, 02 Jan 2006 15:04:05 -0700",       // time.RFC1123Z
    RFC3339,                                 // time.RFC3339
    "2006-01-02T15:04:05.999999999Z07:00"    // time.RFC3339Nano
  ]

  /**
    The time the first layout from `i` on that parses `value` gives, or the
    `failed to parse date/time` error when none does.
  */
  function FirstTime(env: Env, value: string, i: nat): (r: Result<Instant, ConvError>)
    requires i <= |TimeFormats|
    ensures r.Ok? ==> exists k :: (i <= k < |TimeFormats| && env.timeParse(TimeFormats[k], value) == Some(r.value)
      && forall j :: i <= j < k ==> env.timeParse(TimeFormats[j], value).None?)
    ensures r.Err? <==> forall k :: i <= k < |TimeFormats| ==> env.timeParse(TimeFormats[k], value).None?
    ensures r.Err? ==> r.error == DateTimeErr(value)
    decreases |TimeFormats| - i
  {
    if i == |TimeFormats| then Err(DateTimeErr(value))
    else
      match env.timeParse(TimeFormats[i], value)
      case Some(t) => Ok(t)
      case None => FirstTime(env, value, i + 1)
  }

  /** `parseTime`: the layouts are tried in order and the first that parses wins. */
  method ParseTime(env: Env, value: string) returns (r: Result<Instant, ConvError>)
    ensures r == FirstTime(env, value, 0)
  {
    for i := 0 to |TimeFormats|
      invariant FirstTime(env, value, i) == FirstTime(env, value, 0)
    {
      var t := env.timeParse(TimeFormats[i], value);
      if t.Some? {
        return Ok(t.value);
      }
    }
    return Err(DateTimeErr(value));
  }

  /**
    A Scanner target, as the Go code has it: a new value of the type scans the time parsed
    by `parseTime` when the type's name contains `NullTime`, and the text otherwise. In the
    `NullTime` case the `:=` declares a new `err` inside the block, the scan's error goes
    into it, and the `err` checked after the block is the outer one, still nil: only the
    other case returns the scan's error.
  */
  function ScanValue(env: Env, name: string, value: string): Result<Converted, ConvError> {
    if Contains(name, "NullTime") then
      match FirstTime(env, value, 0)
      case Err(e) => Err(e)
      case Ok(t) => Ok(Converted(VScanner(name, ScanTime(t)), false))
    else
      match env.scan(name, ScanText(value))
      case Some(msg) => Err(ScanErr(msg))
      case None => Ok(Converted(VScanner(name, ScanText(value)), false))
  }

  /** The Scanner branch as evidently intended: the scan's error is returned in the `NullTime` case too. */
  function ScanValueFixed(env: Env, name: string, value: string): Result<Converted, ConvError> {
    if Contains(name, "NullTime") then
      match FirstTime(env, value, 0)
      case Err(e) => Err(e)
      case Ok(t) =>
        match env.scan(name, ScanTime(t))
        case Some(msg) => Err(ScanErr(msg))
        case None => Ok(Converted(VScanner(name, ScanTime(t)), false))
    else
      match env.scan(name, ScanText(value))
      case Some(msg) => Err(ScanErr(msg))
      case None => Ok(Converted(VScanner(name, ScanText(value)), false))
  }

  /**
    `convertValue(v, value)` for a target of type `t`: the text is trimmed, then converted.
    The target is written exactly when the value is neither a nil pointer nor a Scanner's,
    a nil pointer needs a pointer target, a string value is the trimmed text, and an
    unsupported type is the one the pointers finally point to.
  */
  function ConvertValue(env: Env, t: TypeTag, raw: string): (r: Result<Converted, ConvError>)
    ensures r.Ok? ==> (r.value.setsTarget <==> !r.value.value.VNil? && !r.value.value.VScanner?)
    ensures r.Ok? && r.value.value.VNil? ==> t.Ptr?
    ensures r.Ok? && r.value.value.VString? ==> r.value.value.s == TrimSpace(raw)
    ensures r.Err? && r.error.Unsupported? ==> Pointee(t) == Other(r.error.typeName)
    decreases t, 1
  {
    TrimSpaceIdempotent(raw);
    ConvertTrimmed(env, t, TrimSpace(raw))
  }

  /** The conversion of the trimmed text `value`, by the target's type. */
  function ConvertTrimmed(env: Env, t: TypeTag, value: string): (r: Result<Converted, ConvError>)
    ensures r.Ok? ==> (r.value.setsTarget <==> !r.value.value.VNil? && !r.value.value.VScanner?)
    ensures r.Ok? && r.value.value.VNil? ==> t.Ptr?
    ensures TrimSpace(value) == value && r.Ok? && r.value.value.VString? ==> r.value.value.s == value
    ensures r.Err? && r.error.Unsupported? ==> Pointee(t) == Other(r.error.typeName)
    decreases t, 0
  {
    match t
    case Time => ConvertTime(env, value)
    case Bytes => ConvertBytes(env, value)
    case Str => Ok(Converted(VString(value), true))
    case Bool => ConvertBool(value)
    case Int(w) => ConvertInt(value, w)
    case Uint(w) => ConvertUint(value, w)
    case Ptr(elem) => if value == "null" then Ok(Converted(VNil, false)) else ConvertValue(env, elem, value)
    case Scanner(name) => ScanValue(env, name, value)
    case Other(name) => Err(Unsupported(name))
  }

  function ConvertTime(env: Env, value: string): Result<Converted, ConvError> {
    match env.timeParse(RFC3339, value)
    case None => Err(TimeErr)
    case Some(x) => Ok(Converted(VTime(x), true))
  }

  function ConvertBytes(env: Env, value: string): Result<Converted, ConvError> {
    match env.decodeBase64(value)
    case None => Err(Base64Err)
    case Some(x) => Ok(Converted(VBytes(x), true))
  }

  function ConvertBool(value: string): Result<Converted, ConvError> {
    match ParseBool(value)
    case Err(e) => Err(NumErr(e))
    case Ok(x) => Ok(Converted(VBool(x), true))
  }

  function ConvertInt(value: string, w: Width): Result<Converted, ConvError> {
    match ParseInt(value)
    case Err(e) => Err(NumErr(e))
    case Ok(x) => if OverflowInt(x, w) then Err(IntOverflow) else Ok(Converted(VInt(x), true))
  }

  function ConvertUint(value: string, w: Width): Result<Converted, ConvError> {
    match ParseUint(value)
    case Err(e) => Err(NumErr(e))
    case Ok(x) => if OverflowUint(x, w) then Err(UintOverflow) else Ok(Converted(VUint(x), true))
  }

  // ---------------------------------------------------------------------------
  // Properties
  // ---------------------------------------------------------------------------

  /** The text is trimmed before anything else: surrounding white space never matters. */
  lemma ConvertTrims(env: Env, t: TypeTag, raw: string)
    ensures ConvertValue(env, t, raw) == ConvertValue(env, t, TrimSpace(raw))
  {
    TrimSpaceIdempotent(raw);
  }

  /** A string target receives exactly the trimmed text. */
  lemma StringTarget(env: Env, raw: string)
    ensures ConvertValue(env, Str, raw) == Ok(Converted(VString(TrimSpace(raw)), true))
    ensures ConvertValue(env, Str, raw).value.value.s == TrimSpace(raw)
  {
  }

  /**
    A signed integer target accepts exactly a signed decimal whose value fits the width;
    a decimal in the int64 range that does not fit is `int overflow`, other text a
    `strconv` error.
  */
  lemma IntTarget(env: Env, w: Width, raw: string)
    ensures var v := TrimSpace(raw);
      (ConvertValue(env, Int(w), raw).Ok? <==> IsSignedDecimal(v) && !OverflowInt(SignedValue(v), w))
      && (ConvertValue(env, Int(w), raw).Ok? ==> ConvertValue(env, Int(w), raw).value == Converted(VInt(SignedValue(v)), true))
      && (IsSignedDecimal(v) && InInt64(SignedValue(v)) && OverflowInt(SignedValue(v), w) ==>
            ConvertValue(env, Int(w), raw) == Err(IntOverflow))
      && (IsSignedDecimal(v) && !InInt64(SignedValue(v)) ==> ConvertValue(env, Int(w), raw) == Err(NumErr(ErrRange)))
      && (!IsSignedDecimal(v) ==> ConvertValue(env, Int(w), raw).Err? && ConvertValue(env, Int(w), raw).error.NumErr?)
  {
    var v := TrimSpace(raw);
    assert ConvertValue(env, Int(w), raw) == ConvertInt(v, w);
    ConvertIntSpec(v, w);
  }

  lemma ConvertIntSpec(v: string, w: Width)
    ensures ConvertInt(v, w).Ok? <==> IsSignedDecimal(v) && !OverflowInt(SignedValue(v), w)
    ensures ConvertInt(v, w).Ok? ==> ConvertInt(v, w).value == Converted(VInt(SignedValue(v)), true)
    ensures IsSignedDecimal(v) && InInt64(SignedValue(v)) && OverflowInt(SignedValue(v), w) ==> ConvertInt(v, w) == Err(IntOverflow)
    ensures IsSignedDecimal(v) && !InInt64(SignedValue(v)) ==> ConvertInt(v, w) == Err(NumErr(ErrRange))
    ensures !IsSignedDecimal(v) ==> ConvertInt(v, w).Err? && ConvertInt(v, w).error.NumErr?
  {
    ParseIntSpec(v);
  }

  /**
    An unsigned integer target accepts exactly a decimal whose value fits the width; a
    decimal up to 2^64 - 1 that does not fit is `unsigned int overflow`, other text a
    `strconv` error.
  */
  lemma UintTarget(env: Env, w: Width, raw: string)
    ensures var v := TrimSpace(raw);
      (ConvertValue(env, Uint(w), raw).Ok? <==> IsDecimal(v) && !OverflowUint(DecimalValue(v), w))
      && (ConvertValue(env, Uint(w), raw).Ok? ==> ConvertValue(env, Uint(w), raw).value == Converted(VUint(DecimalValue(v)), true))
      && (IsDecimal(v) && DecimalValue(v) <= MaxUint64 && OverflowUint(DecimalValue(v), w) ==>
            ConvertValue(env, Uint(w), raw) == Err(UintOverflow))
      && (IsDecimal(v) && DecimalValue(v) > MaxUint64 ==> ConvertValue(env, Uint(w), raw) == Err(NumErr(ErrRange)))
      && (!IsDecimal(v) ==> ConvertValue(env, Uint(w), raw).Err? && ConvertValue(env, Uint(w), raw).error.NumErr?)
  {
    var v := TrimSpace(raw);
    assert ConvertValue(env, Uint(w), raw) == ConvertUint(v, w);
    ConvertUintSpec(v, w);
  }

  lemma ConvertUintSpec(v: string, w: Width)
    ensures ConvertUint(v, w).Ok? <==> IsDecimal(v) && !OverflowUint(DecimalValue(v), w)
    ensures ConvertUint(v, w).Ok? ==> ConvertUint(v, w).value == Converted(VUint(DecimalValue(v)), true)
    ensures IsDecimal(v) && DecimalValue(v) <= MaxUint64 && OverflowUint(DecimalValue(v), w) ==> ConvertUint(v, w) == Err(UintOverflow)
    ensures IsDecimal(v) && DecimalValue(v) > MaxUint64 ==> ConvertUint(v, w) == Err(NumErr(ErrRange))
    ensures !IsDecimal(v) ==> ConvertUint(v, w).Err? && ConvertUint(v, w).error.NumErr?
  {
    ParseUintSpec(v);
  }

  /** A value of any width converts back from its decimal rendering, spaces around it or not. */
  lemma IntRoundTrip(env: Env, w: Width, x: int, pad: string)
    requires !OverflowInt(x, w) && forall i :: 0 <= i < |pad| ==> pad[i] == ' '
    ensures ConvertValue(env, Int(w), pad + FormatInt(x) + pad) == Ok(Converted(VInt(x), true))
  {
    var f := FormatInt(x);
    FormatIntEnds(x);
    PaddedTrims(f, pad);
    assert ConvertValue(env, Int(w), pad + f + pad) == ConvertInt(f, w);
    assert InInt64(x) by {
      assert IntMin(w) >= -Int64Cutoff && IntMax(w) < Int64Cutoff;
    }
    ParseIntFormat(x);
  }

  lemma UintRoundTrip(env: Env, w: Width, x: nat, pad: string)
    requires !OverflowUint(x, w) && forall i :: 0 <= i < |pad| ==> pad[i] == ' '
    ensures ConvertValue(env, Uint(w), pad + FormatNat(x) + pad) == Ok(Converted(VUint(x), true))
  {
    var f := FormatNat(x);
    FormatIntEnds(x);
    PaddedTrims(f, pad);
    assert ConvertValue(env, Uint(w), pad + f + pad) == ConvertUint(f, w);
    assert x <= MaxUint64 by {
      assert UintMax(w) <= MaxUint64;
    }
    ParseUintFormat(x);
  }

  /** Decimal renderings neither start nor end with white space. */
  lemma FormatIntEnds(x: int)
    ensures var f := FormatInt(x); f != [] && !IsSpace(f[0]) && !IsSpace(f[|f| - 1])
    ensures x >= 0 ==> FormatInt(x) == FormatNat(x)
  {
    var f := FormatInt(x);
    var digits := FormatNat(if x < 0 then -x else x);
    assert f[|f| - 1] == digits[|digits| - 1];
    assert IsDigit(digits[0]) && IsDigit(digits[|digits| - 1]);
  }

  /** Trimming spaces off a padded rendering gives the rendering back. */
  lemma PaddedTrims(s: string, pad: string)
    requires s != [] && !IsSpace(s[0]) && !IsSpace(s[|s| - 1])
    requires forall i :: 0 <= i < |pad| ==> pad[i] == ' '
    ensures TrimSpace(pad + s + pad) == s
  {
    assert pad + s + pad == pad + (s + pad);
    TrimLeftPad(pad, s + pad);
    TrimRightPad(s, pad);
  }

  /** Leading spaces before a text that starts with something else are all that `TrimLeft` drops. */
  lemma TrimLeftPad(pad: string, u: string)
    requires u != [] && !IsSpace(u[0]) && forall i :: 0 <= i < |pad| ==> pad[i] == ' '
    ensures TrimLeft(pad + u) == u
  {
    var s := pad + u;
    assert s[|pad|] == u[0];
    assert SpaceEnd(s, 0) == |pad|;
    assert s[|pad|..] == u;
  }

  /** Trailing spaces after a text that ends with something else are all that `TrimRight` drops. */
  lemma TrimRightPad(u: string, pad: string)
    requires u != [] && !IsSpace(u[|u| - 1]) && forall i :: 0 <= i < |pad| ==> pad[i] == ' '
    ensures TrimRight(u + pad) == u
  {
    var s := u + pad;
    assert s[|u| - 1] == u[|u| - 1];
    assert SpaceStart(s, |s|) == |u|;
    assert s[..|u|] == u;
  }

  /** A boolean target accepts exactly the `strconv.ParseBool` spellings. */
  lemma BoolTarget(env: Env, raw: string, b: bool)
    ensures ConvertValue(env, Bool, raw) == Ok(Converted(VBool(b), true))
      <==> TrimSpace(raw) in (if b then {"1", "t", "T", "TRUE", "true", "True"} else {"0", "f", "F", "FALSE", "false", "False"})
    ensures ConvertValue(env, Bool, raw).Err? ==> ConvertValue(env, Bool, raw) == Err(NumErr(ErrSyntax))
  {
    var v := TrimSpace(raw);
    assert ConvertValue(env, Bool, raw) == ConvertBool(v);
    ParseBoolSpec(v);
  }

  /**
    A pointer target: exactly the text `null` gives the nil pointer without touching the
    target; any other text is converted for the pointed-to type.
  */
  lemma PtrTarget(env: Env, elem: TypeTag, raw: string)
    ensures TrimSpace(raw) == "null" ==> ConvertValue(env, Ptr(elem), raw) == Ok(Converted(VNil, false))
    ensures TrimSpace(raw) != "null" ==> ConvertValue(env, Ptr(elem), raw) == ConvertValue(env, elem, raw)
  {
    var v := TrimSpace(raw);
    assert ConvertValue(env, Ptr(elem), raw) == if v == "null" then Ok(Converted(VNil, false)) else ConvertValue(env, elem, v);
    if v != "null" {
      ConvertTrims(env, elem, raw);
    }
  }

  /** A `time.Time` target accepts only RFC 3339 text; a `[]byte` target only standard base64. */
  lemma TimeAndBytesTargets(env: Env, raw: string)
    ensures ConvertValue(env, Time, raw).Ok? <==> env.timeParse(RFC3339, TrimSpace(raw)).Some?
    ensures ConvertValue(env, Time, raw).Ok? ==>
      ConvertValue(env, Time, raw).value == Converted(VTime(env.timeParse(RFC3339, TrimSpace(raw)).value), true)
    ensures ConvertValue(env, Bytes, raw).Ok? <==> env.decodeBase64(TrimSpace(raw)).Some?
    ensures ConvertValue(env, Bytes, raw).Ok? ==>
      ConvertValue(env, Bytes, raw).value == Converted(VBytes(env.decodeBase64(TrimSpace(raw)).value), true)
  {
  }

  /**
    The fallback: an unsupported type is an error; a Scanner type whose name contains
    `NullTime` scans the first time `parseTime` finds and returns the scanner whatever the
    scan says, any other Scanner type scans the trimmed text and returns the scan's error;
    the target itself is never written.
  */
  lemma ScannerTargets(env: Env, name: string, raw: string)
    ensures ConvertValue(env, Other(name), raw) == Err(Unsupported(name))
    ensures var v := TrimSpace(raw);
      Contains(name, "NullTime") ==>
        (FirstTime(env, v, 0).Err? ==> ConvertValue(env, Scanner(name), raw) == Err(DateTimeErr(v)))
        && (FirstTime(env, v, 0).Ok? ==>
              ConvertValue(env, Scanner(name), raw) == Ok(Converted(VScanner(name, ScanTime(FirstTime(env, v, 0).value)), false)))
    ensures var v := TrimSpace(raw);
      !Contains(name, "NullTime") ==>
        ConvertValue(env, Scanner(name), raw) ==
          if env.scan(name, ScanText(v)).Some? then Err(ScanErr(env.scan(name, ScanText(v)).value))
          else Ok(Converted(VScanner(name, ScanText(v)), false))
    ensures ConvertValue(env, Scanner(name), raw).Ok? ==> !ConvertValue(env, Scanner(name), raw).value.setsTarget
  {
    var v := TrimSpace(raw);
    assert ConvertValue(env, Scanner(name), raw) == ScanValue(env, name, v);
  }

  /** Calls into other packages where every time parses, nothing decodes and every scan fails. */
  function FailingScan(): Env {
    Env((layout, value) => Some(Instant(0, 0)), s => None, (name, arg) => Some("scan failed"))
  }

  /**
    As written, the `NullTime` branch drops the scan's error: with a parsable time and a
    scan that fails, the Go code returns the scanner and no error, where the intended
    branch returns the scan's error.
  */
  lemma NullTimeScanErrorDropped()
    ensures ConvertTrimmed(FailingScan(), Scanner("NullTime"), "2020") == Ok(Converted(VScanner("NullTime", ScanTime(Instant(0, 0))), false))
    ensures ScanValueFixed(FailingScan(), "NullTime", "2020") == Err(ScanErr("scan failed"))
  {
    NullTimeParses();
    assert ConvertTrimmed(FailingScan(), Scanner("NullTime"), "2020") == ScanValue(FailingScan(), "NullTime", "2020");
  }

  lemma NullTimeParses()
    ensures Contains("NullTime", "NullTime") && FirstTime(FailingScan(), "2020", 0) == Ok(Instant(0, 0))
  {
    assert OccursAt("NullTime", "NullTime", 0);
  }

  /**
    The intended branch returns the scan's error exactly when the scan fails, and it agrees
    with the code as written whenever the scan succeeds or the type is no `NullTime`.
  */
  lemma ScanValueCorrected(env: Env, name: string, value: string)
    ensures ScanValueFixed(env, name, value).Ok? ==> ScanValue(env, name, value) == ScanValueFixed(env, name, value)
    ensures !Contains(name, "NullTime") ==> ScanValue(env, name, value) == ScanValueFixed(env, name, value)
    ensures ScanValueFixed(env, name, value).Ok? && ScanValueFixed(env, name, value).value.value.VScanner? ==>
      var arg := ScanValueFixed(env, name, value).value.value.scanned;
      env.scan(name, arg).None?
    ensures Contains(name, "NullTime") && FirstTime(env, value, 0).Ok? ==>
      (ScanValueFixed(env, name, value).Err? <==> env.scan(name, ScanTime(FirstTime(env, value, 0).value)).Some?)
  {
  }
}
