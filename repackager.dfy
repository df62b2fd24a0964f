/** Rebuilding a packet from its field map (server/engine/repackager.go): the
    user fields, sorted by offset, cut the packet into segments; built-in
    segments are copied, user segments re-encoded from the field map, and the
    output options applied last. */
module Repackager {
  import opened Wrappers
  import opened GoText
  import opened Values
  import opened Parser

  // ---------------------------------------------------------------------------
  // Encoding a value into a field's bytes
  // ---------------------------------------------------------------------------

  /** `make([]byte, n)`. */
  function ZeroBytes(n: nat): (r: seq<byte>)
    ensures |r| == n && forall i :: 0 <= i < n ==> r[i] == 0
  {
    seq(n, i => 0)
  }

  /** `padOrTruncate`: exactly `length` bytes, the first ones copied from
      `data` and the rest zero. */
  function PadOrTruncate(data: seq<byte>, length: nat): (r: seq<byte>)
    ensures |r| == length
    ensures forall i :: 0 <= i < length ==> r[i] == (if i < |data| then data[i] else 0)
  {
    if |data| == length then data
    else if |data| > length then data[..length]
    else data + ZeroBytes(length - |data|)
  }

  /** The `length` low-order bytes of `v` in two's complement, most
      significant first (Euclidean `/` and `%` by 256 are Go's arithmetic
      `>> 8` and `& 0xFF`). */
  function IntBytes(v: int, length: nat): (r: seq<byte>)
    ensures |r| == length
    decreases length
  {
    if length == 0 then [] else IntBytes(v / 256, length - 1) + [v % 256]
  }

  /** `intToBytes`: fills the buffer from the last byte backwards, shifting
      `value` right by eight bits each time. */
  method IntToBytes(value: int, length: nat) returns (bytes: seq<byte>)
    ensures bytes == IntBytes(value, length)
  {
    var buf := new byte[length];
    var v := value;
    var i := length;
    while i > 0
      invariant 0 <= i <= length
      invariant IntBytes(value, length) == IntBytes(v, i) + buf[i..]
    {
      i := i - 1;
      buf[i] := v % 256;
      assert buf[i..] == [v % 256] + buf[i + 1..];
      v := v / 256;
    }
    bytes := buf[..];
  }

  // ---------------------------------------------------------------------------
  // intToBytes against bytesToDecimal
  // ---------------------------------------------------------------------------

  /** Euclidean division is determined by its quotient and remainder. */
  lemma DivModUnique(v: int, m: int, q: int, r: int)
    requires m > 0 && v == q * m + r && 0 <= r < m
    ensures v / m == q && v % m == r
  {
    var q0 := v / m;
    var r0 := v % m;
    assert v == q0 * m + r0;
    assert (q - q0) * m == r0 - r;
    if q > q0 {
      MulAtLeast(q - q0, m);
    } else if q < q0 {
      MulAtLeast(q0 - q, m);
    }
  }

  lemma MulAtLeast(a: int, m: int)
    requires a >= 1 && m > 0
    ensures a * m >= m
  {
    assert a * m == (a - 1) * m + m;
  }

  /** Splitting off the low byte of a remainder modulo 256 * p. */
  lemma ModShift(v: int, p: int)
    requires p > 0
    ensures v % (256 * p) == (v / 256) % p * 256 + v % 256
  {
    var r := v % 256;
    var t := (v / 256) / p;
    var u := (v / 256) % p;
    assert v == 256 * (v / 256) + r;
    assert v / 256 == t * p + u;
    assert v == t * (256 * p) + (u * 256 + r);
    assert u * 256 <= (p - 1) * 256;
    DivModUnique(v, 256 * p, t, u * 256 + r);
  }

  /** `intToBytes` writes the residue of `v` modulo 256^length. */
  lemma {:induction false} BigEndianIntBytes(v: int, length: nat)
    ensures BigEndian(IntBytes(v, length)) == v % Pow256(length)
    decreases length
  {
    if length > 0 {
      var b := IntBytes(v, length);
      assert b[..length - 1] == IntBytes(v / 256, length - 1);
      BigEndianIntBytes(v / 256, length - 1);
      ModShift(v, Pow256(length - 1));
    }
  }

  lemma {:induction false} Pow256Add(a: nat, b: nat)
    ensures Pow256(a + b) == Pow256(a) * Pow256(b)
    decreases a
  {
    if a > 0 {
      Pow256Add(a - 1, b);
    }
  }

  lemma Pow256Eight()
    ensures Pow256(8) == TwoTo64
  {
    assert Pow256(4) == 0x1_0000_0000 by {
      assert Pow256(2) == 0x1_0000;
    }
    assert Pow256(8) == 0x1_0000_0000 * 0x1_0000_0000 by {
      Pow256Add(4, 4);
    }
  }

  /** A residue modulo a multiple of m is congruent modulo m. */
  lemma ModMultiple(v: int, m: int, k: int)
    requires m > 0 && k > 0
    ensures (v % (k * m) - v) % m == 0
  {
    var c := v / (k * m);
    assert v % (k * m) - v == (-(c * k)) * m + 0 by {
      assert v == c * (k * m) + v % (k * m);
    }
    DivModUnique(v % (k * m) - v, m, -(c * k), 0);
  }

  /** `bytesToDecimal(intToBytes(v, L)) == v` for an int64 `v` that fits in
      L bytes unsigned; when L is 8 or more, every int64 comes back. */
  lemma DecimalIntBytes(v: int, length: nat)
    requires InInt64(v) && (length >= 8 || 0 <= v < Pow256(length))
    ensures DecimalOf(IntBytes(v, length)) == v
  {
    BigEndianIntBytes(v, length);
    if 0 <= v < Pow256(length) {
      ResidueOfSmall(v, Pow256(length));
    } else {
      ResidueModWide(v, length);
    }
  }

  lemma ResidueOfSmall(v: int, m: int)
    requires 0 <= v < m
    ensures v % m == v
  {
    DivModUnique(v, m, 0, v);
  }

  /** 256^L splits off the 2^64 of its last eight bytes. */
  lemma Pow256Wide(length: nat)
    requires length >= 8
    ensures Pow256(length) == Pow256(length - 8) * TwoTo64
  {
    var a := length - 8;
    Pow256Add(a, 8);
    assert a + 8 == length;
    Pow256Eight();
  }

  /** Modulo 256^L with L >= 8, every number wraps to itself as an int64. */
  lemma ResidueModWide(v: int, length: nat)
    requires InInt64(v) && length >= 8
    ensures Wrap64(v % Pow256(length)) == v
  {
    var P := Pow256(length);
    var k := Pow256(length - 8);
    Pow256Wide(length);
    assert (v % P - v) % TwoTo64 == 0 by {
      ModMultiple(v, TwoTo64, k);
    }
    Wrap64Congruent(v % P, v);
  }

  /** Big-endian values tell byte strings of one length apart. */
  lemma {:induction false} BigEndianInjective(a: seq<byte>, b: seq<byte>)
    requires |a| == |b| && BigEndian(a) == BigEndian(b)
    ensures a == b
  {
    if a != [] {
      var n := |a| - 1;
      DivModUnique(BigEndian(a), 256, BigEndian(a[..n]), a[n]);
      DivModUnique(BigEndian(a), 256, BigEndian(b[..n]), b[n]);
      BigEndianInjective(a[..n], b[..n]);
      assert a == a[..n] + [a[n]] && b == b[..n] + [b[n]];
    }
  }

  /** `intToBytes` writes back the bytes `bytesToDecimal` read, for fields of
      up to eight bytes. */
  lemma IntBytesDecimal(data: seq<byte>)
    requires |data| <= 8
    ensures IntBytes(DecimalOf(data), |data|) == data
  {
    BigEndianBound(data);
    WrapResidue(BigEndian(data), |data|);
    BigEndianIntBytes(DecimalOf(data), |data|);
    BigEndianInjective(IntBytes(DecimalOf(data), |data|), data);
  }

  /** Wrapping into int64 keeps the residue modulo 256^n for n <= 8. */
  lemma WrapResidue(b: int, n: nat)
    requires n <= 8 && 0 <= b < Pow256(n)
    ensures Wrap64(b) % Pow256(n) == b
  {
    var P := Pow256(n);
    var Q := Pow256(8 - n);
    assert Q * P == TwoTo64 by {
      Pow256Add(8 - n, n);
      Pow256Eight();
    }
    ModCongruent(b, Wrap64(b), P, Q);
    ResidueOfSmall(b, P);
  }

  /** Numbers congruent modulo k * m have the same residue modulo m. */
  lemma ModCongruent(x: int, y: int, m: int, k: int)
    requires m > 0 && k > 0 && (x - y) % (k * m) == 0
    ensures x % m == y % m
  {
    var c := (x - y) / (k * m);
    assert x - y == c * (k * m);
    assert x == (y / m + c * k) * m + y % m by {
      assert y == (y / m) * m + y % m;
    }
    DivModUnique(x, m, y / m + c * k, y % m);
  }

  // ---------------------------------------------------------------------------
  // valueToBytes
  // ---------------------------------------------------------------------------

  /** The white space `fmt.Sscanf` skips before a number (a newline stops
      the scan instead). */
  predicate IsScanSpace(c: char) {
    c == ' ' || c == '\t' || c == '\U{000B}' || c == '\U{000C}' || c == '\r'
  }

  function SkipScanSpace(s: string): (r: string)
    ensures |r| <= |s| && r == s[|s| - |r|..]
    ensures r == [] || !IsScanSpace(r[0])
  {
    if s != [] && IsScanSpace(s[0]) then SkipScanSpace(s[1..]) else s
  }

  /** The end of the run of decimal digits starting at p. */
  function DigitsEnd(s: string, p: nat): (e: nat)
    requires p <= |s|
    ensures p <= e <= |s|
    ensures forall k :: p <= k < e ==> IsDigit(s[k])
    ensures e == |s| || !IsDigit(s[e])
    decreases |s| - p
  {
    if p < |s| && IsDigit(s[p]) then DigitsEnd(s, p + 1) else p
  }

  /** `fmt.Sscanf(s, "%d", &intVal)` with `intVal` starting at 0: leading
      white space, an optional sign and the longest run of digits, read as
      an int64; nothing readable or an overflow leaves 0. */
  function ScanInt(s: string): (n: int)
    ensures InInt64(n)
  {
    var t := SkipScanSpace(s);
    var start := if t != [] && (t[0] == '+' || t[0] == '-') then 1 else 0;
    match ParseInt64(t[..DigitsEnd(t, start)])
    case Ok(v) => v
    case Err(_) => 0
  }

  /** `fmt.Sscanf` reads back what `strconv.Itoa` writes. */
  lemma ScanIntItoa(n: int)
    requires InInt64(n)
    ensures ScanInt(Itoa(n)) == n
  {
    var s := Itoa(n);
    var start := if n < 0 then 1 else 0;
    ItoaShape(n);
    assert SkipScanSpace(s) == s;
    DigitsEndAll(s, start);
    assert s[..|s|] == s;
    ParseItoa(n);
  }

  /** `strconv.Itoa` writes an optional minus sign, then digits only. */
  lemma ItoaShape(n: int)
    ensures var s := Itoa(n); var start := if n < 0 then 1 else 0;
      && start < |s| && s[0] != '+' && (s[0] == '-' <==> n < 0) && !IsScanSpace(s[0])
      && forall k :: start <= k < |s| ==> IsDigit(s[k])
  {
    var s := Itoa(n);
    var start := if n < 0 then 1 else 0;
    var digits := if n < 0 then NatToString(-n) else NatToString(n);
    assert s[start..] == digits;
    assert s[start] == digits[0];
    forall k | start <= k < |s| ensures IsDigit(s[k]) {
      assert s[k] == digits[k - start];
    }
  }

  lemma {:induction false} DigitsEndAll(s: string, p: nat)
    requires p <= |s| && forall k :: p <= k < |s| ==> IsDigit(s[k])
    ensures DigitsEnd(s, p) == |s|
    decreases |s| - p
  {
    if p < |s| {
      DigitsEndAll(s, p + 1);
    }
  }

  /** The int64 the "decimal" branch encodes: the value itself, or what
      `Sscanf` reads from a string. */
  function DecimalInput(value: Value): (n: int)
    ensures InInt64(n)
  {
    match value
    case Null => 0
    case I64(n) => Wrap64(n)
    case I(n) => Wrap64(n)
    case Str(s) => ScanInt(s)
  }

  /** `valueToBytes`: nil is `length` zero bytes; "hex" decodes a string,
      "decimal" encodes an int64 big-endian, "string" writes the text (`%v`
      of a non-string), each padded or truncated to the field's length; any
      other type is an error. A negative length panics wherever a buffer is
      made or cut to it: in `make` for nil and "decimal", in
      `padOrTruncate`'s slice for "hex" and "string". */
  function ValueToBytes(value: Value, f: Field): (r: Result<seq<byte>, EngineError>)
    ensures value.Null? && f.length >= 0 ==> r == Ok(ZeroBytes(f.length))
    ensures value.Null? && f.length < 0 ==> r == Err(LenOutOfRange)
    ensures r.Ok? ==> |r.value| == f.length
    ensures var rejected :=
        !value.Null? &&
        ((f.kind != "hex" && f.kind != "decimal" && f.kind != "string") ||
         (f.kind == "hex" && (!value.Str? || HexDecode(value.s).Err?)));
      && (r.Err? && !IsPanic(r.error) <==> rejected)
      && (r.Err? && IsPanic(r.error) <==> f.length < 0 && !rejected)
  {
    if value.Null? then
      if f.length < 0 then Err(LenOutOfRange) else Ok(ZeroBytes(f.length))
    else if f.kind == "hex" then
      if !value.Str? then Err(ExpectedHexString)
      else match HexDecode(value.s)
        case Err(_) => Err(BadHex)
        case Ok(b) => if f.length < 0 then Err(SliceOutOfRange) else Ok(PadOrTruncate(b, f.length))
    else if f.kind == "decimal" then
      if f.length < 0 then Err(LenOutOfRange) else Ok(IntBytes(DecimalInput(value), f.length))
    else if f.kind == "string" then
      if f.length < 0 then Err(SliceOutOfRange)
      else Ok(PadOrTruncate(StringToBytes(if value.Str? then value.s else FormatDefault(value)), f.length))
    else Err(UnknownFieldType(f.kind))
  }

  /** Encoding the value `ExtractField` decoded from a field's bytes gives
      those bytes back, for "hex", "string" and "decimal" fields of up to
      eight bytes. */
  lemma EncodeDecodedSlice(data: seq<byte>, f: Field)
    requires |data| == f.length
    requires f.kind == "hex" || f.kind == "string" || (f.kind == "decimal" && f.length <= 8)
    ensures ValueToBytes(DecodeSlice(data, f.kind), f) == Ok(data)
  {
    if f.kind == "hex" {
      HexRoundTrip(data);
    } else if f.kind == "decimal" {
      IntBytesDecimal(data);
    } else {
      var t := TrimRightChar(BytesToString(data), '\0');
      var r := PadOrTruncate(StringToBytes(t), f.length);
      forall i | 0 <= i < |data| ensures r[i] == data[i] {
        if i < |t| {
          assert t[i] == BytesToString(data)[i];
        } else {
          assert BytesToString(data)[i] == '\0';
        }
      }
      assert r == data;
    }
  }

  /** Values a rule stores through the "decimal" branch come back from
      `bytesToDecimal` when they fit. */
  lemma DecimalFieldRoundTrip(value: Value, f: Field)
    requires f.kind == "decimal" && !value.Null? && f.length >= 0
    requires f.length >= 8 || 0 <= DecimalInput(value) < Pow256(f.length)
    ensures ValueToBytes(value, f).Ok? && DecimalOf(ValueToBytes(value, f).value) == DecimalInput(value)
  {
    DecimalIntBytes(DecimalInput(value), f.length);
  }

  // ---------------------------------------------------------------------------
  // Sorting the user fields by offset
  // ---------------------------------------------------------------------------

  predicate SortedByOffset(fs: seq<Field>) {
    forall i, j :: 0 <= i < j < |fs| ==> fs[i].offset <= fs[j].offset
  }

  /** Inserts `f` before the first field that does not start before it. */
  function InsertByOffset(f: Field, fs: seq<Field>): (r: seq<Field>)
    requires SortedByOffset(fs)
    ensures SortedByOffset(r) && multiset(r) == multiset(fs) + multiset{f}
  {
    if fs == [] || f.offset <= fs[0].offset then [f] + fs
    else
      var rest := InsertByOffset(f, fs[1..]);
      InsertedFrom(f, fs[1..], rest);
      HeadBelow(fs);
      SortedCons(fs[0], rest);
      assert fs == [fs[0]] + fs[1..];
      [fs[0]] + rest
  }

  lemma HeadBelow(fs: seq<Field>)
    requires SortedByOffset(fs) && fs != []
    ensures forall x :: x in fs[1..] ==> fs[0].offset <= x.offset
  {
    forall x | x in fs[1..] ensures fs[0].offset <= x.offset {
      var i :| 0 <= i < |fs[1..]| && fs[1..][i] == x;
      assert fs[i + 1] == x;
    }
  }

  lemma SortedCons(x: Field, rest: seq<Field>)
    requires SortedByOffset(rest)
    requires forall k :: 0 <= k < |rest| ==> x.offset <= rest[k].offset
    ensures SortedByOffset([x] + rest)
  {
    forall i, j | 0 <= i < j < |[x] + rest| ensures ([x] + rest)[i].offset <= ([x] + rest)[j].offset {
      if i > 0 {
        assert ([x] + rest)[i] == rest[i - 1];
      }
      assert ([x] + rest)[j] == rest[j - 1];
    }
  }

  lemma InsertedFrom(f: Field, fs: seq<Field>, r: seq<Field>)
    requires multiset(r) == multiset(fs) + multiset{f}
    ensures forall k :: 0 <= k < |r| ==> r[k] == f || r[k] in fs
  {
    forall k | 0 <= k < |r| ensures r[k] == f || r[k] in fs {
      assert r[k] in multiset(r);
    }
  }

  /** `sort.Slice` by offset, as a stable insertion sort: the same fields,
      in ascending offset order. */
  function SortByOffset(fs: seq<Field>): (r: seq<Field>)
    ensures SortedByOffset(r) && multiset(r) == multiset(fs)
  {
    if fs == [] then []
    else
      assert fs == [fs[0]] + fs[1..];
      InsertByOffset(fs[0], SortByOffset(fs[1..]))
  }

  /** Fields already in offset order keep their order. */
  lemma {:induction false} SortSorted(fs: seq<Field>)
    requires SortedByOffset(fs)
    ensures SortByOffset(fs) == fs
  {
    if fs != [] {
      SortSorted(fs[1..]);
      assert fs == [fs[0]] + fs[1..];
    }
  }

  // ---------------------------------------------------------------------------
  // extractFieldSegments
  // ---------------------------------------------------------------------------

  /** `FieldSegment`: a run of original bytes, or a user field. */
  datatype Segment = Builtin(start: int, size: int) | User(field: Field) {
    function Offset(): int {
      if Builtin? then start else field.offset
    }
    function Length(): int {
      if Builtin? then size else field.length
    }
    function End(): int {
      Offset() + Length()
    }
  }

  /** The user fields of a segment list, in order. */
  function UserFields(segs: seq<Segment>): seq<Field> {
    if segs == [] then [] else (if segs[0].User? then [segs[0].field] else []) + UserFields(segs[1..])
  }

  lemma {:induction false} UserFieldsAppend(a: seq<Segment>, b: seq<Segment>)
    ensures UserFields(a + b) == UserFields(a) + UserFields(b)
  {
    if a != [] {
      UserFieldsAppend(a[1..], b);
      var x := if a[0].User? then [a[0].field] else [];
      assert (a + b)[0] == a[0] && (a + b)[1..] == a[1..] + b;
      assert UserFields(a + b) == x + UserFields(a[1..] + b);
    } else {
      assert a + b == b;
    }
  }

  /** The segments the scan emits for the sorted fields `fs`, from offset
      `cur` in a packet of `packetLen` bytes: a gap before each field that
      starts past `cur`, the field, then the rest from the field's end; a
      trailing gap if bytes remain. */
  function SegmentsFrom(fs: seq<Field>, cur: int, packetLen: int): seq<Segment>
    decreases |fs|
  {
    if fs == [] then (if cur < packetLen then [Builtin(cur, packetLen - cur)] else [])
    else Gap(cur, fs[0].offset) + [User(fs[0])] + SegmentsFrom(fs[1..], fs[0].offset + fs[0].length, packetLen)
  }

  /** The run of original bytes between `cur` and the next field's offset. */
  function Gap(cur: int, next: int): (g: seq<Segment>)
    ensures |g| <= 1 && forall k :: 0 <= k < |g| ==> g[k] == Builtin(cur, next - cur) && next - cur > 0
  {
    if cur < next then [Builtin(cur, next - cur)] else []
  }

  /** Every run of original bytes in the list is non-empty. */
  predicate GapsNonEmpty(segs: seq<Segment>) {
    forall k :: 0 <= k < |segs| && segs[k].Builtin? ==> segs[k].size > 0
  }

  /** Every run of original bytes the scan emits is non-empty. */
  lemma {:induction false} SegmentsGapsNonEmpty(fs: seq<Field>, cur: int, packetLen: int)
    ensures GapsNonEmpty(SegmentsFrom(fs, cur, packetLen))
    decreases |fs|
  {
    if fs != [] {
      var g := Gap(cur, fs[0].offset);
      var rest := SegmentsFrom(fs[1..], fs[0].offset + fs[0].length, packetLen);
      SegmentsGapsNonEmpty(fs[1..], fs[0].offset + fs[0].length, packetLen);
      var segs := g + [User(fs[0])] + rest;
      forall k | 0 <= k < |segs| && segs[k].Builtin? ensures segs[k].size > 0 {
        if k < |g| {
          assert segs[k] == g[k] == Builtin(cur, fs[0].offset - cur);
          assert fs[0].offset - cur > 0;
        } else if k > |g| {
          assert segs[k] == rest[k - |g| - 1];
        }
      }
    }
  }

  /** The user segments the scan emits are the fields, in order. */
  lemma {:induction false} SegmentsUserFields(fs: seq<Field>, cur: int, packetLen: int)
    ensures UserFields(SegmentsFrom(fs, cur, packetLen)) == fs
    decreases |fs|
  {
    if fs != [] {
      var g := Gap(cur, fs[0].offset);
      var rest := SegmentsFrom(fs[1..], fs[0].offset + fs[0].length, packetLen);
      SegmentsUserFields(fs[1..], fs[0].offset + fs[0].length, packetLen);
      UserFieldsAppend(g + [User(fs[0])], rest);
      UserFieldsAppend(g, [User(fs[0])]);
      assert UserFields(g) == [];
      assert UserFields([User(fs[0])]) == [fs[0]];
      assert fs == [fs[0]] + fs[1..];
    }
  }

  /** `extractFieldSegments`' result for a packet and its user fields. */
  function FieldSegments(raw: seq<byte>, userFields: seq<Field>): seq<Segment> {
    SegmentsFrom(SortByOffset(userFields), 0, |raw|)
  }

  /** `extractFieldSegments`: sort the fields by offset, then scan them. */
  method ExtractFieldSegments(raw: seq<byte>, userFields: seq<Field>) returns (segments: seq<Segment>)
    ensures segments == FieldSegments(raw, userFields)
  {
    var sorted := SortByOffset(userFields);
    segments := ScanSegments(sorted, |raw|);
  }

  /** The scan of `extractFieldSegments` over the sorted fields of a packet
      of `packetLen` bytes. */
  method ScanSegments(sorted: seq<Field>, packetLen: int) returns (segments: seq<Segment>)
    ensures segments == SegmentsFrom(sorted, 0, packetLen)
  {
    ghost var all := SegmentsFrom(sorted, 0, packetLen);
    segments := [];
    var cur := 0;
    var i := 0;
    while i < |sorted|
      invariant 0 <= i <= |sorted|
      invariant segments + SegmentsFrom(sorted[i..], cur, packetLen) == all
    {
      var f := sorted[i];
      ghost var before := segments;
      var gap: seq<Segment> := [];
      if cur < f.offset {
        gap := [Builtin(cur, f.offset - cur)];
      }
      assert gap == Gap(cur, f.offset);
      segments := segments + gap + [User(f)];
      SegmentsFromStep(sorted, i, cur, packetLen, before, segments);
      cur := f.offset + f.length;
      i := i + 1;
    }
    ghost var before := segments;
    if cur < packetLen {
      segments := segments + [Builtin(cur, packetLen - cur)];
    }
    SegmentsFromEnd(sorted, cur, packetLen, before, segments);
  }

  lemma SegmentsFromEnd(fs: seq<Field>, cur: int, n: int, before: seq<Segment>, after: seq<Segment>)
    requires after == before + (if cur < n then [Builtin(cur, n - cur)] else [])
    ensures before + SegmentsFrom(fs[|fs|..], cur, n) == after
  {
    assert fs[|fs|..] == [];
  }

  lemma SegmentsFromStep(fs: seq<Field>, i: int, cur: int, n: int, before: seq<Segment>, after: seq<Segment>)
    requires 0 <= i < |fs|
    requires after == before + Gap(cur, fs[i].offset) + [User(fs[i])]
    ensures after + SegmentsFrom(fs[i + 1..], fs[i].offset + fs[i].length, n) == before + SegmentsFrom(fs[i..], cur, n)
  {
    assert fs[i..][1..] == fs[i + 1..];
  }

  // ---------------------------------------------------------------------------
  // Tiling
  // ---------------------------------------------------------------------------

  /** The segments cover [lo, hi) contiguously, in order. */
  predicate Tiles(segs: seq<Segment>, lo: int, hi: int) {
    && (segs == [] ==> lo == hi)
    && (segs != [] ==> segs[0].Offset() == lo && segs[|segs| - 1].End() == hi)
    && (forall k :: 0 <= k < |segs| ==> segs[k].Length() >= 0)
    && (forall k :: 0 <= k < |segs| - 1 ==> segs[k].End() == segs[k + 1].Offset())
  }

  /** The sorted fields lie in [lo, hi) without overlapping: each starts at
      or after the end of the one before it. */
  predicate Laid(fs: seq<Field>, lo: int, hi: int)
    decreases |fs|
  {
    lo <= hi && (fs != [] ==> lo <= fs[0].offset && 0 <= fs[0].length && Laid(fs[1..], fs[0].offset + fs[0].length, hi))
  }

  lemma TilesCons(seg: Segment, rest: seq<Segment>, lo: int, hi: int)
    requires seg.Offset() == lo && seg.Length() >= 0 && Tiles(rest, seg.End(), hi)
    ensures Tiles([seg] + rest, lo, hi)
  {
    var segs := [seg] + rest;
    forall k | 0 <= k < |segs| - 1 ensures segs[k].End() == segs[k + 1].Offset() {
      if k > 0 {
        assert segs[k] == rest[k - 1] && segs[k + 1] == rest[k];
      }
    }
  }

  /** `extractFieldSegments` on laid-out fields tiles the scanned range. */
  lemma {:induction false} SegmentsFromTile(fs: seq<Field>, cur: int, hi: int)
    requires Laid(fs, cur, hi)
    ensures Tiles(SegmentsFrom(fs, cur, hi), cur, hi)
    decreases |fs|
  {
    if fs != [] {
      var f := fs[0];
      var rest := SegmentsFrom(fs[1..], f.offset + f.length, hi);
      var tail := [User(f)] + rest;
      assert Tiles(tail, f.offset, hi) by {
        SegmentsFromTile(fs[1..], f.offset + f.length, hi);
        TilesCons(User(f), rest, f.offset, hi);
      }
      var g := Gap(cur, f.offset);
      assert g + [User(f)] + rest == g + tail;
      if cur < f.offset {
        TilesCons(Builtin(cur, f.offset - cur), tail, cur, hi);
      }
    }
  }

  /** For user fields that, once sorted, lie inside the packet without
      overlapping, the segments tile the whole packet in offset order: the
      user segments are the sorted fields and every gap is non-empty. */
  lemma SegmentsTile(raw: seq<byte>, userFields: seq<Field>)
    requires Laid(SortByOffset(userFields), 0, |raw|)
    ensures var segs := FieldSegments(raw, userFields);
      && Tiles(segs, 0, |raw|)
      && UserFields(segs) == SortByOffset(userFields)
      && GapsNonEmpty(segs)
  {
    SegmentsFromTile(SortByOffset(userFields), 0, |raw|);
    SegmentsUserFields(SortByOffset(userFields), 0, |raw|);
    SegmentsGapsNonEmpty(SortByOffset(userFields), 0, |raw|);
  }

  // ---------------------------------------------------------------------------
  // reassemblePacket
  // ---------------------------------------------------------------------------

  /** Go's `raw[lo:hi]`, which panics out of range (the capacity of the
      packet buffer is taken to be its length). */
  function Slice(raw: seq<byte>, lo: int, hi: int): (r: Result<seq<byte>, EngineError>)
    ensures r.Ok? <==> 0 <= lo <= hi <= |raw|
    ensures r.Ok? ==> r.value == raw[lo..hi]
    ensures r.Err? ==> r.error == SliceOutOfRange
  {
    if 0 <= lo <= hi <= |raw| then Ok(raw[lo..hi]) else Err(SliceOutOfRange)
  }

  /** The bytes one segment contributes: a user field's encoded value, or
      its original bytes when encoding returned an error (a panic while
      encoding propagates); a run of original bytes as it is, or nothing if
      it reaches past the packet. */
  function Piece(raw: seq<byte>, seg: Segment, fields: map<string, Value>): Result<seq<byte>, EngineError> {
    match seg
    case Builtin(o, l) => if o + l <= |raw| then Slice(raw, o, o + l) else Ok([])
    case User(f) =>
      match ValueToBytes(Lookup(fields, f.name), f)
      case Ok(b) => Ok(b)
      case Err(e) => if IsPanic(e) then Err(e) else Slice(raw, f.offset, f.offset + f.length)
  }

  /** The output after the segments in order; the first out-of-range slice
      aborts the whole reassembly. */
  function Reassembled(raw: seq<byte>, segs: seq<Segment>, fields: map<string, Value>): Result<seq<byte>, EngineError>
    decreases |segs|
  {
    if segs == [] then Ok([])
    else
      match Reassembled(raw, segs[..|segs| - 1], fields)
      case Err(e) => Err(e)
      case Ok(out) =>
        match Piece(raw, segs[|segs| - 1], fields)
        case Err(e) => Err(e)
        case Ok(b) => Ok(out + b)
  }

  /** Once a prefix of the segments has failed, the reassembly fails with
      that same error. */
  lemma {:induction false} ReassembledErrSticks(raw: seq<byte>, segs: seq<Segment>, fields: map<string, Value>, k: nat)
    requires k <= |segs| && Reassembled(raw, segs[..k], fields).Err?
    ensures Reassembled(raw, segs, fields) == Reassembled(raw, segs[..k], fields)
    decreases |segs|
  {
    if k == |segs| {
      assert segs[..k] == segs;
    } else {
      var init := segs[..|segs| - 1];
      assert init[..k] == segs[..k];
      ReassembledErrSticks(raw, init, fields, k);
    }
  }

  /** `reassemblePacket`: appends every segment's bytes to the output. */
  method ReassemblePacket(raw: seq<byte>, segs: seq<Segment>, ctx: PacketContext) returns (r: Result<seq<byte>, EngineError>)
    ensures r == Reassembled(raw, segs, ctx.fields)
  {
    var output: seq<byte> := [];
    var i := 0;
    while i < |segs|
      invariant 0 <= i <= |segs|
      invariant Reassembled(raw, segs[..i], ctx.fields) == Ok(output)
    {
      assert segs[..i + 1][..i] == segs[..i];
      assert segs[..i + 1][i] == segs[i];
      match segs[i] {
        case User(f) =>
          var bytes := ValueToBytes(Lookup(ctx.fields, f.name), f);
          if bytes.Err? && IsPanic(bytes.error) {
            ReassembledErrSticks(raw, segs, ctx.fields, i + 1);
            return Err(bytes.error);
          }
          if bytes.Err? {
            if !(0 <= f.offset <= f.offset + f.length <= |raw|) {
              ReassembledErrSticks(raw, segs, ctx.fields, i + 1);
              return Err(SliceOutOfRange);
            }
            output := output + raw[f.offset..f.offset + f.length];
          } else {
            output := output + bytes.value;
          }
        case Builtin(o, l) =>
          var endOffset := o + l;
          if endOffset <= |raw| {
            if !(0 <= o <= endOffset) {
              ReassembledErrSticks(raw, segs, ctx.fields, i + 1);
              return Err(SliceOutOfRange);
            }
            output := output + raw[o..endOffset];
          } else {
            assert output + [] == output;
          }
      }
      i := i + 1;
    }
    assert segs[..i] == segs;
    return Ok(output);
  }

  /** A segment's bytes when it lies inside the packet: its encoded value,
      or its original bytes. Reassembly appends exactly these, and they are
      as long as the segment. */
  function Encoded(raw: seq<byte>, seg: Segment, fields: map<string, Value>): (b: seq<byte>)
    requires 0 <= seg.Offset() <= seg.End() <= |raw|
    ensures |b| == seg.Length()
    ensures Piece(raw, seg, fields) == Ok(b)
  {
    match seg
    case Builtin(o, l) => raw[o..o + l]
    case User(f) =>
      match ValueToBytes(Lookup(fields, f.name), f)
      case Ok(v) => v
      case Err(_) => raw[f.offset..f.offset + f.length]
  }

  /** A tiling keeps every segment inside the tiled range. */
  lemma {:induction false} TilesBounds(segs: seq<Segment>, lo: int, hi: int)
    requires Tiles(segs, lo, hi)
    ensures forall k :: 0 <= k < |segs| ==> lo <= segs[k].Offset() <= segs[k].End() <= hi
  {
    if segs != [] {
      var rest := segs[1..];
      assert Tiles(rest, segs[0].End(), hi);
      TilesBounds(rest, segs[0].End(), hi);
      forall k | 0 <= k < |segs| ensures lo <= segs[k].Offset() <= segs[k].End() <= hi {
        if k > 0 {
          assert segs[k] == rest[k - 1];
        } else if |segs| > 1 {
          assert rest[0] == segs[1];
        }
      }
    }
  }

  /** Where the output of the first `k` segments of a tiling ends. */
  function PrefixEnd(segs: seq<Segment>, k: nat): int
    requires k <= |segs|
  {
    if k == 0 then 0 else segs[k - 1].End()
  }

  /** Every one of the first `k` segments lies inside the packet, and its
      bytes sit at its own offset of `out`. */
  predicate LaidOut(out: seq<byte>, raw: seq<byte>, segs: seq<Segment>, fields: map<string, Value>, k: nat)
    requires k <= |segs|
  {
    forall j :: 0 <= j < k ==>
      && 0 <= segs[j].Offset() <= segs[j].End() <= |out|
      && segs[j].End() <= |raw|
      && out[segs[j].Offset()..segs[j].End()] == Encoded(raw, segs[j], fields)
  }

  lemma SliceOfAppend(a: seq<byte>, b: seq<byte>, lo: int, hi: int)
    requires 0 <= lo <= hi <= |a|
    ensures (a + b)[lo..hi] == a[lo..hi]
  {
  }

  /** Reassembling one more in-range segment appends its encoding. */
  lemma ReassembledSnoc(raw: seq<byte>, segs: seq<Segment>, fields: map<string, Value>, k: nat, prev: seq<byte>)
    requires 0 < k <= |segs|
    requires 0 <= segs[k - 1].Offset() <= segs[k - 1].End() <= |raw|
    requires Reassembled(raw, segs[..k - 1], fields) == Ok(prev)
    ensures Reassembled(raw, segs[..k], fields) == Ok(prev + Encoded(raw, segs[k - 1], fields))
  {
    assert segs[..k][..k - 1] == segs[..k - 1];
    assert segs[..k][k - 1] == segs[k - 1];
  }

  /** Appending the next segment's encoding at its offset extends a layout. */
  lemma LaidOutSnoc(prev: seq<byte>, raw: seq<byte>, segs: seq<Segment>, fields: map<string, Value>, k: nat)
    requires 0 < k <= |segs|
    requires 0 <= segs[k - 1].Offset() <= segs[k - 1].End() <= |raw|
    requires |prev| == segs[k - 1].Offset()
    requires LaidOut(prev, raw, segs, fields, k - 1)
    ensures LaidOut(prev + Encoded(raw, segs[k - 1], fields), raw, segs, fields, k)
  {
    var e := Encoded(raw, segs[k - 1], fields);
    var out := prev + e;
    forall j | 0 <= j < k
      ensures 0 <= segs[j].Offset() <= segs[j].End() <= |out|
      ensures segs[j].End() <= |raw|
      ensures out[segs[j].Offset()..segs[j].End()] == Encoded(raw, segs[j], fields)
    {
      if j < k - 1 {
        SliceOfAppend(prev, e, segs[j].Offset(), segs[j].End());
      } else {
        assert out[|prev|..|out|] == e;
      }
    }
  }

  /** For segments tiling the packet, reassembly succeeds and every segment's
      bytes land at its own offset: a run of original bytes is copied
      verbatim and a user field holds its encoded value, or its original
      bytes when the value cannot be encoded. */
  lemma {:induction false} ReassembledLayout(raw: seq<byte>, segs: seq<Segment>, fields: map<string, Value>, k: nat)
    requires Tiles(segs, 0, |raw|) && k <= |segs|
    ensures var r := Reassembled(raw, segs[..k], fields);
      r.Ok? && |r.value| == PrefixEnd(segs, k) && LaidOut(r.value, raw, segs, fields, k)
  {
    if k > 0 {
      ReassembledLayout(raw, segs, fields, k - 1);
      var prev := Reassembled(raw, segs[..k - 1], fields).value;
      assert 0 <= segs[k - 1].Offset() <= segs[k - 1].End() <= |raw| by {
        TilesBounds(segs, 0, |raw|);
      }
      assert |prev| == segs[k - 1].Offset();
      ReassembledSnoc(raw, segs, fields, k, prev);
      LaidOutSnoc(prev, raw, segs, fields, k);
    }
  }

  /** Reassembling a tiling gives a packet of the original length. */
  lemma ReassembledLength(raw: seq<byte>, segs: seq<Segment>, fields: map<string, Value>)
    requires Tiles(segs, 0, |raw|)
    ensures Reassembled(raw, segs, fields).Ok?
    ensures |Reassembled(raw, segs, fields).value| == |raw|
  {
    ReassembledLayout(raw, segs, fields, |segs|);
    assert segs[..|segs|] == segs;
  }

  /** A segment whose encoding reproduces its original bytes. */
  predicate Verbatim(raw: seq<byte>, seg: Segment, fields: map<string, Value>) {
    0 <= seg.Offset() <= seg.End() <= |raw| && Encoded(raw, seg, fields) == raw[seg.Offset()..seg.End()]
  }

  /** If every user field of a tiling re-encodes to its original bytes, the
      reassembled packet is the original packet. */
  lemma {:induction false} ReassembledVerbatim(raw: seq<byte>, segs: seq<Segment>, fields: map<string, Value>, k: nat)
    requires Tiles(segs, 0, |raw|) && k <= |segs|
    requires forall j :: 0 <= j < |segs| && segs[j].User? ==> Verbatim(raw, segs[j], fields)
    ensures 0 <= PrefixEnd(segs, k) <= |raw|
    ensures Reassembled(raw, segs[..k], fields) == Ok(raw[..PrefixEnd(segs, k)])
  {
    if k > 0 {
      ReassembledVerbatim(raw, segs, fields, k - 1);
      var seg := segs[k - 1];
      assert 0 <= seg.Offset() <= seg.End() <= |raw| by {
        TilesBounds(segs, 0, |raw|);
      }
      var prev := raw[..seg.Offset()];
      ReassembledSnoc(raw, segs, fields, k, prev);
      VerbatimEncoded(raw, seg, fields);
      SliceConcat(raw, seg.Offset(), seg.End());
    }
  }

  /** A built-in run, or a user field that re-encodes verbatim, contributes
      its original bytes. */
  lemma VerbatimEncoded(raw: seq<byte>, seg: Segment, fields: map<string, Value>)
    requires 0 <= seg.Offset() <= seg.End() <= |raw|
    requires seg.User? ==> Verbatim(raw, seg, fields)
    ensures Encoded(raw, seg, fields) == raw[seg.Offset()..seg.End()]
  {
  }

  lemma SliceConcat(raw: seq<byte>, i: int, j: int)
    requires 0 <= i <= j <= |raw|
    ensures raw[..i] + raw[i..j] == raw[..j]
  {
  }

  lemma ReassembledIdentity(raw: seq<byte>, segs: seq<Segment>, fields: map<string, Value>)
    requires Tiles(segs, 0, |raw|)
    requires forall j :: 0 <= j < |segs| && segs[j].User? ==> Verbatim(raw, segs[j], fields)
    ensures Reassembled(raw, segs, fields) == Ok(raw)
  {
    ReassembledVerbatim(raw, segs, fields, |segs|);
    assert segs[..|segs|] == segs;
    assert PrefixEnd(segs, |segs|) == |raw|;
    assert raw[..|raw|] == raw;
  }

  // ---------------------------------------------------------------------------
  // applyOutputOptions
  // ---------------------------------------------------------------------------

  const ComputeChecksum: string := "compute_checksum"

  /** One output option: "compute_checksum" runs the checksum recalculation
      (which may fail); every other name is ignored. */
  function ApplyOption(data: seq<byte>, option: string, recalc: seq<byte> -> Option<seq<byte>>): Result<seq<byte>, EngineError> {
    if option == ComputeChecksum then
      match recalc(data)
      case None => Err(ChecksumFailed)
      case Some(d) => Ok(d)
    else Ok(data)
  }

  /** The options applied in order; the first failure stops. */
  function ApplyOptions(data: seq<byte>, options: seq<string>, recalc: seq<byte> -> Option<seq<byte>>): Result<seq<byte>, EngineError>
    decreases |options|
  {
    if options == [] then Ok(data)
    else
      match ApplyOptions(data, options[..|options| - 1], recalc)
      case Err(e) => Err(e)
      case Ok(d) => ApplyOption(d, options[|options| - 1], recalc)
  }

  /** The checksum recalculation run `n` times. */
  function Recalculated(data: seq<byte>, n: nat, recalc: seq<byte> -> Option<seq<byte>>): Result<seq<byte>, EngineError> {
    if n == 0 then Ok(data)
    else
      match Recalculated(data, n - 1, recalc)
      case Err(e) => Err(e)
      case Ok(d) => ApplyOption(d, ComputeChecksum, recalc)
  }

  /** Applying a list of options is the same as running the checksum
      recalculation once per "compute_checksum" entry: the other names have
      no effect. */
  lemma {:induction false} ApplyOptionsCounts(data: seq<byte>, options: seq<string>, recalc: seq<byte> -> Option<seq<byte>>)
    ensures ApplyOptions(data, options, recalc) == Recalculated(data, multiset(options)[ComputeChecksum], recalc)
    decreases |options|
  {
    if options != [] {
      var init := options[..|options| - 1];
      var last := options[|options| - 1];
      assert options == init + [last];
      assert multiset(options) == multiset(init) + multiset{last};
      ApplyOptionsCounts(data, init, recalc);
    }
  }

  /** Two option lists with the same number of "compute_checksum" entries
      give the same result, whatever else they contain and in whatever order. */
  lemma UnknownOptionsIgnored(data: seq<byte>, a: seq<string>, b: seq<string>, recalc: seq<byte> -> Option<seq<byte>>)
    requires multiset(a)[ComputeChecksum] == multiset(b)[ComputeChecksum]
    ensures ApplyOptions(data, a, recalc) == ApplyOptions(data, b, recalc)
  {
    ApplyOptionsCounts(data, a, recalc);
    ApplyOptionsCounts(data, b, recalc);
  }

  /** The options text is a JSON list of names, decoded by `decode` (None when
      it is not valid JSON); empty or undecodable options leave the data
      unchanged. */
  function OutputOptions(data: seq<byte>, optionsJSON: string, decode: string -> Option<seq<string>>,
                         recalc: seq<byte> -> Option<seq<byte>>): Result<seq<byte>, EngineError> {
    if optionsJSON == "" then Ok(data)
    else
      match decode(optionsJSON)
      case None => Ok(data)
      case Some(options) => ApplyOptions(data, options, recalc)
  }

  /** The options ask for no checksum: they are empty, not valid JSON, or a
      list without "compute_checksum". */
  predicate InertOptions(optionsJSON: string, decode: string -> Option<seq<string>>) {
    optionsJSON == "" || decode(optionsJSON).None? || ComputeChecksum !in decode(optionsJSON).value
  }

  /** Options that ask for no checksum return the data unchanged. */
  lemma InertOptionsUnchanged(data: seq<byte>, optionsJSON: string, decode: string -> Option<seq<string>>,
                              recalc: seq<byte> -> Option<seq<byte>>)
    requires InertOptions(optionsJSON, decode)
    ensures OutputOptions(data, optionsJSON, decode, recalc) == Ok(data)
  {
    if optionsJSON != "" && decode(optionsJSON).Some? {
      ApplyOptionsCounts(data, decode(optionsJSON).value, recalc);
    }
  }

  /** A checksum failure is reported as such, and nothing else fails. */
  lemma {:induction false} ApplyOptionsErrors(data: seq<byte>, options: seq<string>, recalc: seq<byte> -> Option<seq<byte>>)
    ensures ApplyOptions(data, options, recalc).Err? ==>
      ApplyOptions(data, options, recalc).error == ChecksumFailed && ComputeChecksum in options
    decreases |options|
  {
    if options != [] {
      var init := options[..|options| - 1];
      ApplyOptionsErrors(data, init, recalc);
      assert options == init + [options[|options| - 1]];
    }
  }

  lemma {:induction false} ApplyOptionsErrSticks(data: seq<byte>, options: seq<string>, recalc: seq<byte> -> Option<seq<byte>>, k: nat)
    requires k <= |options| && ApplyOptions(data, options[..k], recalc).Err?
    ensures ApplyOptions(data, options, recalc) == ApplyOptions(data, options[..k], recalc)
    decreases |options|
  {
    if k == |options| {
      assert options[..k] == options;
    } else {
      var init := options[..|options| - 1];
      assert init[..k] == options[..k];
      ApplyOptionsErrSticks(data, init, recalc, k);
    }
  }

  /** `applyOutputOptions`: decodes the options and applies them in order. */
  method ApplyOutputOptions(data: seq<byte>, optionsJSON: string, decode: string -> Option<seq<string>>,
                            recalc: seq<byte> -> Option<seq<byte>>) returns (r: Result<seq<byte>, EngineError>)
    ensures r == OutputOptions(data, optionsJSON, decode, recalc)
  {
    if optionsJSON == "" {
      return Ok(data);
    }
    var decoded := decode(optionsJSON);
    if decoded.None? {
      return Ok(data);
    }
    var options := decoded.value;
    var result := data;
    var i := 0;
    while i < |options|
      invariant 0 <= i <= |options|
      invariant ApplyOptions(data, options[..i], recalc) == Ok(result)
    {
      assert options[..i + 1][..i] == options[..i];
      assert options[..i + 1][i] == options[i];
      if options[i] == ComputeChecksum {
        var next := recalc(result);
        if next.None? {
          ApplyOptionsErrSticks(data, options, recalc, i + 1);
          return Err(ChecksumFailed);
        }
        result := next.value;
      }
      i := i + 1;
    }
    assert options[..i] == options;
    return Ok(result);
  }

  // ---------------------------------------------------------------------------
  // RepackagePacket
  // ---------------------------------------------------------------------------

  /** The result of repackaging a packet with the current field map. */
  function Repackaged(raw: seq<byte>, fields: map<string, Value>, defs: seq<Field>, optionsJSON: string,
                      decode: string -> Option<seq<string>>, recalc: seq<byte> -> Option<seq<byte>>): Result<seq<byte>, EngineError> {
    if defs == [] then Ok(raw)
    else
      match Reassembled(raw, FieldSegments(raw, defs), fields)
      case Err(e) => Err(e)
      case Ok(out) =>
        match OutputOptions(out, optionsJSON, decode, recalc)
        case Err(e) => Err(OutputOptionsFailed(e))
        case Ok(result) => Ok(result)
  }

  /** `RepackagePacket`: with no fields the packet is returned as it is;
      otherwise it is cut into segments, reassembled from the field map and
      passed through the output options. */
  method RepackagePacket(optionsJSON: string, ctx: PacketContext, defs: seq<Field>,
                         decode: string -> Option<seq<string>>, recalc: seq<byte> -> Option<seq<byte>>)
    returns (r: Result<seq<byte>, EngineError>)
    ensures r == Repackaged(ctx.packet.raw, ctx.fields, defs, optionsJSON, decode, recalc)
  {
    var raw := ctx.packet.raw;
    if |defs| == 0 {
      return Ok(raw);
    }
    var segments := ExtractFieldSegments(raw, defs);
    var reassembled := ReassemblePacket(raw, segments, ctx);
    if reassembled.Err? {
      return Err(reassembled.error);
    }
    var result := ApplyOutputOptions(reassembled.value, optionsJSON, decode, recalc);
    if result.Err? {
      return Err(OutputOptionsFailed(result.error));
    }
    return Ok(result.value);
  }

  /** Fields that lie inside the packet without overlapping keep the packet's
      length when no checksum is asked for. */
  lemma RepackagedLength(raw: seq<byte>, fields: map<string, Value>, defs: seq<Field>, optionsJSON: string,
                         decode: string -> Option<seq<string>>, recalc: seq<byte> -> Option<seq<byte>>)
    requires Laid(SortByOffset(defs), 0, |raw|)
    requires InertOptions(optionsJSON, decode)
    ensures Repackaged(raw, fields, defs, optionsJSON, decode, recalc).Ok?
    ensures |Repackaged(raw, fields, defs, optionsJSON, decode, recalc).value| == |raw|
  {
    if defs != [] {
      SegmentsTile(raw, defs);
      ReassembledLength(raw, FieldSegments(raw, defs), fields);
      InertOptionsUnchanged(Reassembled(raw, FieldSegments(raw, defs), fields).value, optionsJSON, decode, recalc);
    }
  }

  /** A user segment's field is one of the segments' user fields. */
  lemma {:induction false} UserFieldsHas(segs: seq<Segment>, j: nat)
    requires j < |segs| && segs[j].User?
    ensures segs[j].field in UserFields(segs)
  {
    if j > 0 {
      UserFieldsHas(segs[1..], j - 1);
      assert segs[1..][j - 1] == segs[j];
    }
  }

  /** A field whose map entry is what extraction stored for it re-encodes to
      its own bytes, unless it is a decimal field wider than eight bytes or a
      builtin field that could not be extracted. */
  lemma StoredValueVerbatim(p: Packet, f: Field, fields: map<string, Value>)
    requires Inside(f, |p.raw|)
    requires Lookup(fields, f.name) == StoredValue(p, f)
    requires f.kind == "decimal" ==> f.length <= 8
    requires f.kind == "builtin" ==> ExtractField(p, f).Ok?
    ensures Verbatim(p.raw, User(f), fields)
  {
    var data := p.raw[f.offset..f.offset + f.length];
    var v := StoredValue(p, f);
    if f.kind == "hex" || f.kind == "string" || f.kind == "decimal" {
      assert v == DecodeSlice(data, f.kind) by { ExtractFieldInside(p, f); }
      EncodeDecodedSlice(data, f);
    } else {
      assert v != Null && ExtractField(p, f).Ok? && v == ExtractField(p, f).value;
      assert ValueToBytes(v, f) == Err(UnknownFieldType(f.kind));
    }
    VerbatimUser(p.raw, f, fields);
  }

  /** A user segment inside the packet keeps its bytes when its value encodes
      to them, or when the encoding fails: the original bytes are used then. */
  lemma VerbatimUser(raw: seq<byte>, f: Field, fields: map<string, Value>)
    requires 0 <= f.offset <= f.offset + f.length <= |raw|
    requires var r := ValueToBytes(Lookup(fields, f.name), f);
      r == Ok(raw[f.offset..f.offset + f.length]) || r.Err?
    ensures Verbatim(raw, User(f), fields)
  {
  }

  /** Re-extracting a packet's fields and repackaging it without changing
      anything gives the packet back, for fields with distinct names that lie
      inside the packet without overlapping, decimal fields of up to eight
      bytes, builtin fields that can be extracted, and no checksum option
      (a Go slice is never longer than the largest `int`). */
  lemma RepackagedIdentity(m: map<string, Value>, p: Packet, defs: seq<Field>, optionsJSON: string,
                           decode: string -> Option<seq<string>>, recalc: seq<byte> -> Option<seq<byte>>)
    requires |p.raw| <= MaxInt64
    requires Laid(SortByOffset(defs), 0, |p.raw|)
    requires forall i, j :: 0 <= i < j < |defs| ==> defs[i].name != defs[j].name
    requires forall i :: 0 <= i < |defs| && defs[i].kind == "decimal" ==> defs[i].length <= 8
    requires forall i :: 0 <= i < |defs| && defs[i].kind == "builtin" ==> ExtractField(p, defs[i]).Ok?
    requires InertOptions(optionsJSON, decode)
    ensures Repackaged(p.raw, ExtractedFields(m, p, defs), defs, optionsJSON, decode, recalc) == Ok(p.raw)
  {
    if defs != [] {
      var raw := p.raw;
      var fields := ExtractedFields(m, p, defs);
      var segs := FieldSegments(raw, defs);
      SegmentsTile(raw, defs);
      TilesBounds(segs, 0, |raw|);
      forall j | 0 <= j < |segs| && segs[j].User? ensures Verbatim(raw, segs[j], fields) {
        var f := segs[j].field;
        UserFieldsHas(segs, j);
        assert f in multiset(defs) by {
          assert f in multiset(SortByOffset(defs));
        }
        var i :| 0 <= i < |defs| && defs[i] == f;
        ExtractedFieldsLastWins(m, p, defs, i);
        StoredValueVerbatim(p, f, fields);
      }
      ReassembledIdentity(raw, segs, fields);
      InertOptionsUnchanged(raw, optionsJSON, decode, recalc);
    }
  }
}
