/** The parts of Go's `strings`, `strconv` and `encoding/hex` packages that the
    packet engine, the VLAN code and the queue parser rely on.

    A Go string is a string of bytes; here it is a `string` whose characters
    each stand for one byte, so only ASCII white space and ASCII letter case are
    recognised (multi-byte UTF-8 code points are outside this model). */
module GoText {
  import opened Wrappers

  /** A Go `byte`. */
  type byte = b: int | 0 <= b < 256

  // ---------------------------------------------------------------------------
  // White space and trimming
  // ---------------------------------------------------------------------------

  /** The single-byte characters that `unicode.IsSpace` accepts. */
  predicate IsSpace(c: char) {
    c == ' ' || c == '\t' || c == '\n' || c == '\r' || c == '\U{000B}' || c == '\U{000C}'
  }

  /** The number of white-space characters `s` starts with. */
  function LeadingSpaces(s: string): (n: nat)
    ensures n <= |s|
  {
    if s != [] && IsSpace(s[0]) then 1 + LeadingSpaces(s[1..]) else 0
  }

  /** Drops the leading white space. */
  function TrimLeftSpace(s: string): (r: string)
    ensures |r| <= |s| && r == s[LeadingSpaces(s)..]
    ensures forall i :: 0 <= i < |s| - |r| ==> IsSpace(s[i])
    ensures r == [] || !IsSpace(r[0])
  {
    if s != [] && IsSpace(s[0]) then TrimLeftSpace(s[1..]) else s
  }

  /** Drops the trailing white space. */
  function TrimRightSpace(s: string): (r: string)
    ensures |r| <= |s| && r == s[..|r|]
    ensures forall i :: |r| <= i < |s| ==> IsSpace(s[i])
    ensures r == [] || !IsSpace(r[|r| - 1])
  {
    if s != [] && IsSpace(s[|s| - 1]) then TrimRightSpace(s[..|s| - 1]) else s
  }

  /** `strings.TrimSpace`: the result neither starts nor ends with white space. */
  function TrimSpace(s: string): (r: string)
    ensures |r| <= |s|
    ensures r == [] || (!IsSpace(r[0]) && !IsSpace(r[|r| - 1]))
  {
    TrimRightSpace(TrimLeftSpace(s))
  }

  /** A string that `strings.TrimSpace` maps to "". */
  predicate IsBlank(s: string) {
    TrimSpace(s) == ""
  }

  lemma BlankIffAllSpace(s: string)
    ensures IsBlank(s) <==> forall i :: 0 <= i < |s| ==> IsSpace(s[i])
  {
    var t := TrimLeftSpace(s);
    if !forall i :: 0 <= i < |s| ==> IsSpace(s[i]) {
      var j :| 0 <= j < |s| && !IsSpace(s[j]);
      assert j >= |s| - |t|;
      assert t[j - (|s| - |t|)] == s[j];
    }
  }

  /** A string without white space at either end is its own `TrimSpace`. */
  lemma TrimSpaceOfTrimmed(s: string)
    requires s == [] || (!IsSpace(s[0]) && !IsSpace(s[|s| - 1]))
    ensures TrimSpace(s) == s
  {
  }

  /** `strings.TrimRight(s, cutset)` for a one-character cut set. */
  function TrimRightChar(s: string, c: char): (r: string)
    ensures |r| <= |s| && r == s[..|r|]
    ensures forall i :: |r| <= i < |s| ==> s[i] == c
    ensures r == [] || r[|r| - 1] != c
  {
    if s != [] && s[|s| - 1] == c then TrimRightChar(s[..|s| - 1], c) else s
  }

  /** `strings.TrimLeft(s, cutset)` for a one-character cut set. */
  function TrimLeftChar(s: string, c: char): (r: string)
    ensures |r| <= |s| && r == s[|s| - |r|..]
    ensures forall i :: 0 <= i < |s| - |r| ==> s[i] == c
    ensures r == [] || r[0] != c
  {
    if s != [] && s[0] == c then TrimLeftChar(s[1..], c) else s
  }

  /** `strings.Trim(s, cutset)` for a one-character cut set. */
  function TrimChar(s: string, c: char): (r: string)
    ensures |r| <= |s|
    ensures r == [] || (r[0] != c && r[|r| - 1] != c)
  {
    TrimRightChar(TrimLeftChar(s, c), c)
  }

  // ---------------------------------------------------------------------------
  // Case and character removal
  // ---------------------------------------------------------------------------

  function LowerChar(c: char): char {
    if 'A' <= c <= 'Z' then (c as int + 32) as char else c
  }

  /** `strings.ToLower` on the ASCII letters. */
  function ToLower(s: string): (r: string)
    ensures |r| == |s|
    ensures forall i :: 0 <= i < |s| ==> r[i] == LowerChar(s[i])
    ensures forall i :: 0 <= i < |r| ==> !('A' <= r[i] <= 'Z')
  {
    if s == [] then [] else [LowerChar(s[0])] + ToLower(s[1..])
  }

  /** `strings.ReplaceAll(s, c, "")` for a one-character pattern. */
  function RemoveChar(s: string, c: char): (r: string)
    ensures c !in r
    ensures |r| <= |s|
    ensures c !in s ==> r == s
    ensures forall x :: x in r ==> x in s
  {
    if s == [] then []
    else if s[0] == c then RemoveChar(s[1..], c)
    else [s[0]] + RemoveChar(s[1..], c)
  }

  // ---------------------------------------------------------------------------
  // Prefixes, splitting and joining
  // ---------------------------------------------------------------------------

  predicate HasPrefix(s: string, p: string) {
    |p| <= |s| && s[..|p|] == p
  }

  predicate HasSuffix(s: string, p: string) {
    |p| <= |s| && s[|s| - |p|..] == p
  }

  /** `strings.Split(s, sep)` for a one-character separator. */
  function Split(s: string, sep: char): (parts: seq<string>)
    ensures |parts| >= 1
    ensures forall i :: 0 <= i < |parts| ==> sep !in parts[i]
    ensures sep !in s ==> parts == [s]
  {
    if s == [] then [""]
    else
      var rest := Split(s[1..], sep);
      if s[0] == sep then [""] + rest
      else assert [s[0]] + s[1..] == s; [[s[0]] + rest[0]] + rest[1..]
  }

  /** `strings.Join(parts, sep)` for a one-character separator. */
  function Join(parts: seq<string>, sep: char): string {
    if parts == [] then ""
    else if |parts| == 1 then parts[0]
    else parts[0] + [sep] + Join(parts[1..], sep)
  }

  /** There is one more piece than there are separators. */
  lemma {:induction false} SplitCount(s: string, sep: char)
    ensures |Split(s, sep)| == multiset(s)[sep] + 1
  {
    if s != [] {
      SplitCount(s[1..], sep);
      assert s == [s[0]] + s[1..];
    }
  }

  /** Joining the pieces of a split gives back the string. */
  lemma {:induction false} JoinSplit(s: string, sep: char)
    ensures Join(Split(s, sep), sep) == s
  {
    if s != [] {
      var rest := Split(s[1..], sep);
      JoinSplit(s[1..], sep);
      if s[0] != sep {
        if |rest| == 1 {
        } else {
          assert ([[s[0]] + rest[0]] + rest[1..])[1..] == rest[1..];
        }
      }
    }
  }

  lemma {:induction false} SplitOverSeparator(a: string, sep: char, t: string)
    requires sep !in a
    ensures Split(a + [sep] + t, sep) == [a] + Split(t, sep)
  {
    if a == [] {
      assert a + [sep] + t == [sep] + t;
      assert ([sep] + t)[1..] == t;
    } else {
      assert (a + [sep] + t)[1..] == a[1..] + [sep] + t;
      SplitOverSeparator(a[1..], sep, t);
      assert [a[0]] + a[1..] == a;
    }
  }

  /** Splitting a join of separator-free pieces gives back the pieces. */
  lemma {:induction false} SplitJoin(parts: seq<string>, sep: char)
    requires |parts| >= 1
    requires forall i :: 0 <= i < |parts| ==> sep !in parts[i]
    ensures Split(Join(parts, sep), sep) == parts
  {
    if |parts| > 1 {
      SplitJoin(parts[1..], sep);
      SplitOverSeparator(parts[0], sep, Join(parts[1..], sep));
      assert [parts[0]] + parts[1..] == parts;
    }
  }

  // ---------------------------------------------------------------------------
  // Decimal numbers (strconv)
  // ---------------------------------------------------------------------------

  const MaxInt64: int := 0x7fff_ffff_ffff_ffff
  const MinInt64: int := -0x8000_0000_0000_0000
  const MaxUint64: int := 0xffff_ffff_ffff_ffff
  const MaxUint16: int := 0xffff

  predicate InInt64(x: int) {
    MinInt64 <= x <= MaxInt64
  }

  /** The two failures strconv reports. */
  datatype NumError = Syntax | Range

  predicate IsDigit(c: char) {
    '0' <= c <= '9'
  }

  function DigitValue(c: char): nat
    requires IsDigit(c)
  {
    c as int - '0' as int
  }

  /** strconv's digit loop: reading `s` after the value `acc`, failing with a
      syntax error at the first non-digit or with a range error at the first
      digit that takes the value past `maxVal`, whichever comes first. */
  function ScanDigits(s: string, acc: nat, maxVal: nat): (r: Result<nat, NumError>)
    ensures r.Ok? ==> acc <= r.value <= maxVal || (s == [] && r.value == acc)
  {
    if s == [] then Ok(acc)
    else if !IsDigit(s[0]) then Err(Syntax)
    else if acc * 10 + DigitValue(s[0]) > maxVal then Err(Range)
    else ScanDigits(s[1..], acc * 10 + DigitValue(s[0]), maxVal)
  }

  /** `strconv.ParseUint(s, 10, bits)` with `maxVal = 2^bits - 1`: no sign is allowed. */
  function ParseUint(s: string, maxVal: nat): (r: Result<nat, NumError>)
    ensures r.Ok? ==> r.value <= maxVal && s != []
  {
    if s == [] then Err(Syntax) else ScanDigits(s, 0, maxVal)
  }

  /** `strconv.ParseInt(s, 10, 64)`, which `strconv.Atoi` agrees with on a
      64-bit platform: an optional sign and decimal digits in the int64 range. */
  function ParseInt64(s: string): (r: Result<int, NumError>)
    ensures r.Ok? ==> InInt64(r.value)
  {
    if s == [] then Err(Syntax)
    else
      var neg := s[0] == '-';
      var body := if s[0] == '+' || s[0] == '-' then s[1..] else s;
      match ParseUint(body, MaxUint64)
      case Err(e) => Err(e)
      case Ok(u) =>
        if !neg && u > MaxInt64 then Err(Range)
        else if neg && u > MaxInt64 + 1 then Err(Range)
        else var v: int := u; Ok(if neg then -v else v)
  }

  lemma {:induction false} ScanDigitsAllDigits(s: string, acc: nat, maxVal: nat)
    requires ScanDigits(s, acc, maxVal).Ok?
    ensures forall i :: 0 <= i < |s| ==> IsDigit(s[i])
  {
    if s != [] {
      ScanDigitsAllDigits(s[1..], acc * 10 + DigitValue(s[0]), maxVal);
      assert forall i :: 0 < i < |s| ==> s[i] == s[1..][i - 1];
    }
  }

  /** A number strconv accepts holds no white space. */
  lemma ParseInt64NoSpace(s: string)
    requires ParseInt64(s).Ok?
    ensures forall i :: 0 <= i < |s| ==> !IsSpace(s[i])
  {
    var body := if s[0] == '+' || s[0] == '-' then s[1..] else s;
    ScanDigitsAllDigits(body, 0, MaxUint64);
    forall i | 0 <= i < |s| ensures !IsSpace(s[i]) {
      if body == s[1..] && i > 0 {
        assert s[i] == body[i - 1];
      }
    }
  }

  /** The number Go returns next to ParseInt's error: 0 after a syntax error,
      the nearest int64 bound after a range error. */
  function ParseInt64Value(s: string): (n: int)
    ensures InInt64(n)
  {
    match ParseInt64(s)
    case Ok(v) => v
    case Err(Syntax) => 0
    case Err(Range) => if s != [] && s[0] == '-' then MinInt64 else MaxInt64
  }

  function DigitChar(d: nat): char
    requires d < 10
  {
    ('0' as int + d) as char
  }

  /** Decimal digits of a natural number, without leading zeros. */
  function NatToString(n: nat): (s: string)
    ensures |s| >= 1
    ensures forall i :: 0 <= i < |s| ==> IsDigit(s[i])
  {
    if n < 10 then [DigitChar(n)] else NatToString(n / 10) + [DigitChar(n % 10)]
  }

  /** `strconv.Itoa`. */
  function Itoa(n: int): string {
    if n < 0 then "-" + NatToString(-n) else NatToString(n)
  }

  /** The left-to-right decimal value of a digit string after `acc`. */
  function FoldDigits(s: string, acc: nat): nat
    requires forall i :: 0 <= i < |s| ==> IsDigit(s[i])
  {
    if s == [] then acc else FoldDigits(s[1..], acc * 10 + DigitValue(s[0]))
  }

  lemma {:induction false} FoldDigitsAppend(s: string, d: char, acc: nat)
    requires forall i :: 0 <= i < |s| ==> IsDigit(s[i])
    requires IsDigit(d)
    ensures FoldDigits(s + [d], acc) == FoldDigits(s, acc) * 10 + DigitValue(d)
  {
    if s != [] {
      assert (s + [d])[1..] == s[1..] + [d];
      FoldDigitsAppend(s[1..], d, acc * 10 + DigitValue(s[0]));
    }
  }

  lemma {:induction false} FoldDigitsGrows(s: string, acc: nat)
    requires forall i :: 0 <= i < |s| ==> IsDigit(s[i])
    ensures FoldDigits(s, acc) >= acc
  {
    if s != [] {
      FoldDigitsGrows(s[1..], acc * 10 + DigitValue(s[0]));
    }
  }

  lemma {:induction false} ScanDigitsFold(s: string, acc: nat, maxVal: nat)
    requires forall i :: 0 <= i < |s| ==> IsDigit(s[i])
    requires FoldDigits(s, acc) <= maxVal
    ensures ScanDigits(s, acc, maxVal) == Ok(FoldDigits(s, acc))
  {
    if s != [] {
      var next := acc * 10 + DigitValue(s[0]);
      FoldDigitsGrows(s[1..], next);
      ScanDigitsFold(s[1..], next, maxVal);
    }
  }

  lemma {:induction false} FoldNatToString(n: nat)
    ensures FoldDigits(NatToString(n), 0) == n
  {
    if n >= 10 {
      FoldNatToString(n / 10);
      FoldDigitsAppend(NatToString(n / 10), DigitChar(n % 10), 0);
    }
  }

  /** `strconv.ParseUint` reads back the digits of a number in range. */
  lemma ParseUintNatToString(n: nat, maxVal: nat)
    requires n <= maxVal
    ensures ParseUint(NatToString(n), maxVal) == Ok(n)
  {
    FoldNatToString(n);
    ScanDigitsFold(NatToString(n), 0, maxVal);
  }

  /** `strconv.ParseInt` reads back what `strconv.Itoa` writes. */
  lemma ParseItoa(n: int)
    requires InInt64(n)
    ensures ParseInt64(Itoa(n)) == Ok(n)
  {
    if n < 0 {
      ParseUintNatToString(-n, MaxUint64);
      assert ("-" + NatToString(-n))[1..] == NatToString(-n);
    } else {
      ParseUintNatToString(n, MaxUint64);
    }
  }

  // ---------------------------------------------------------------------------
  // Hexadecimal (encoding/hex)
  // ---------------------------------------------------------------------------

  function HexDigit(v: nat): (c: char)
    requires v < 16
    ensures HexValue(c) == v
  {
    "0123456789abcdef"[v]
  }

  /** The value of a hexadecimal digit of either case, or -1. */
  function HexValue(c: char): int {
    if '0' <= c <= '9' then c as int - '0' as int
    else if 'a' <= c <= 'f' then c as int - 'a' as int + 10
    else if 'A' <= c <= 'F' then c as int - 'A' as int + 10
    else -1
  }

  /** `hex.EncodeToString`: two lower-case digits per byte. */
  function HexEncode(data: seq<byte>): (s: string)
    ensures |s| == 2 * |data|
  {
    if data == [] then ""
    else [HexDigit(data[0] / 16), HexDigit(data[0] % 16)] + HexEncode(data[1..])
  }

  /** `hex.DecodeString`: fails on an odd length or a non-hex character. */
  function HexDecode(s: string): (r: Result<seq<byte>, NumError>)
    ensures r.Ok? ==> 2 * |r.value| == |s|
  {
    if s == [] then Ok([])
    else if |s| == 1 then Err(Syntax)
    else if HexValue(s[0]) < 0 || HexValue(s[1]) < 0 then Err(Syntax)
    else match HexDecode(s[2..])
      case Err(e) => Err(e)
      case Ok(rest) => Ok([HexValue(s[0]) * 16 + HexValue(s[1])] + rest)
  }

  /** `hex.DecodeString` reads back what `hex.EncodeToString` writes. */
  lemma {:induction false} HexRoundTrip(data: seq<byte>)
    ensures HexDecode(HexEncode(data)) == Ok(data)
  {
    if data != [] {
      var s := HexEncode(data);
      assert s[2..] == HexEncode(data[1..]);
      assert HexValue(s[0]) == data[0] / 16 && HexValue(s[1]) == data[0] % 16;
      HexRoundTrip(data[1..]);
      assert [data[0]] + data[1..] == data;
    }
  }
}
