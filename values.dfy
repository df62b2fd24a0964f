/** The data the packet engine passes around: field definitions, the values of
    the per-packet field map, and the errors the engine reports. */
module Values {
  import opened GoText

  /** What the engine stores in `PacketContext.Fields` (a Go `interface{}`):
      nil, a string, an int64, or an int. */
  datatype Value = Null | Str(s: string) | I64(n: int) | I(n: int)

  /** `models.Field`: a named slice of the packet and how to read it
      (`kind` is "hex", "decimal", "string", "builtin" or anything else).
      Offset and length are 64-bit Go `int`s, stored as given: either may
      be negative. */
  datatype Field = Field(name: string, offset: GoInt, length: GoInt, kind: string)

  /** Go's `int` on a 64-bit platform. */
  type GoInt = x: int | MinInt64 <= x <= MaxInt64

  /** Go's `offset+length` on 64-bit `int`s, wrap-around included. */
  function FieldEnd(f: Field): (e: int)
    ensures InInt64(f.offset + f.length) ==> e == f.offset + f.length
  {
    Wrap64(f.offset + f.length)
  }

  /** The field lies inside a buffer of `n` bytes, with a non-negative
      length and an end that does not wrap. */
  predicate Inside(f: Field, n: int) {
    0 <= f.offset && 0 <= f.length && f.offset + f.length <= n && f.offset + f.length <= MaxInt64
  }

  /** The errors of the engine, one constructor per `fmt.Errorf` site. */
  datatype EngineError =
    | EmptyPacket                              // "empty packet"
    | BuiltinUnavailable(name: string)         // "builtin field %s not available"
    | InvalidOffset(name: string)              // "invalid offset/length for field %s"
    | FieldNotFound(name: string)              // "field not found: %s"
    | InvalidComparison(expr: string)          // "invalid comparison expression: %s"
    | ActionsUndecodable                       // "failed to parse actions: %w"
    | ActionFailed(field: string, cause: EngineError)  // "failed to execute action on %s: %w"
    | UnknownOperation(op: string)             // "unknown operation: %s"
    | UnknownArithmetic(op: string)            // "unknown arithmetic operation: %s"
    | NotANumber(current: Value)               // "cannot convert current value to number: %v"
    | UnsupportedArithmetic(current: Value)    // "unsupported type for arithmetic: %T"
    | InvalidOperand(text: string)             // "invalid numeric value: %s"
    | DivisionByZero                           // "division by zero"
    | ShellFailed                              // "shell command failed: %w"
    | ExpectedHexString                        // "expected string for hex field"
    | BadHex                                   // hex.DecodeString's error
    | UnsupportedDecimal(value: Value)         // "unsupported type for decimal: %T"
    | UnknownFieldType(kind: string)           // "unknown field type: %s"
    | ChecksumFailed                           // "failed to compute checksum: %w"
    | OutputOptionsFailed(cause: EngineError)  // "failed to apply output options: %w"
    | SliceOutOfRange                          // the run-time panic of an out-of-range slice
    | LenOutOfRange                            // the run-time panic of `make` with a negative length

  /** The errors that are Go run-time panics rather than returned errors. */
  predicate IsPanic(e: EngineError) {
    e == SliceOutOfRange || e == LenOutOfRange
  }

  /** Reading a Go map yields nil for a missing key. */
  function Lookup(m: map<string, Value>, k: string): (v: Value)
    ensures k !in m ==> v == Null
    ensures k in m ==> v == m[k]
  {
    if k in m then m[k] else Null
  }

  const TwoTo64: int := 0x1_0000_0000_0000_0000

  /** Two's-complement wrap-around of an integer into int64. */
  function Wrap64(x: int): (r: int)
    ensures InInt64(r)
    ensures (x - r) % TwoTo64 == 0
    ensures InInt64(x) ==> r == x
  {
    var m := x % TwoTo64;
    if m > MaxInt64 then m - TwoTo64 else m
  }

  /** Go's `string(data)`: one character per byte. */
  function BytesToString(data: seq<byte>): (s: string)
    ensures |s| == |data|
    ensures forall i :: 0 <= i < |data| ==> s[i] as int == data[i]
  {
    seq(|data|, i requires 0 <= i < |data| => data[i] as char)
  }

  /** Go's `[]byte(s)`: the byte each character stands for. */
  function StringToBytes(s: string): (data: seq<byte>)
    ensures |data| == |s|
    ensures forall i :: 0 <= i < |s| ==> data[i] == s[i] as int % 256
  {
    seq(|s|, i requires 0 <= i < |s| => s[i] as int % 256)
  }

  lemma BytesStringRoundTrip(data: seq<byte>)
    ensures StringToBytes(BytesToString(data)) == data
  {
  }
}
