/** Field extraction from a raw packet (server/engine/parser.go): version
    dispatch, offset/length slicing with big-endian decoding, the built-in
    5-tuple fields, typed comparison against condition literals, display
    formatting and the Wireshark-style hex dump.

    gopacket's layer decoding is not modelled: the decoded layers are an input
    (`decode` below), given as optional records. */
module Parser {
  import opened Wrappers
  import opened GoText
  import opened Values

  // ---------------------------------------------------------------------------
  // Decoded layers and the packet context
  // ---------------------------------------------------------------------------

  /** The IPv4 header fields the engine reads; `protocolName` is what
      `Protocol.String()` prints. */
  datatype IPv4Layer = IPv4Layer(srcIp: string, dstIp: string, protocol: byte, protocolName: string)

  /** A TCP or UDP header's ports. */
  datatype PortLayer = PortLayer(srcPort: nat, dstPort: nat)

  /** The layers gopacket found; a nil layer is `None`. */
  datatype Layers = Layers(ipv4: Option<IPv4Layer>, tcp: Option<PortLayer>, udp: Option<PortLayer>)

  /** The first layer gopacket is asked to decode. */
  datatype Decoder = DecodeIPv4 | DecodeIPv6 | DecodeEthernet

  /** The read-only part of `PacketContext`. */
  datatype Packet = Packet(raw: seq<byte>, decoder: Decoder, layers: Layers)

  /** `PacketContext`: the packet and the field map that extraction, the
      actions and the repackager read and update in place. */
  class PacketContext {
    const packet: Packet
    var fields: map<string, Value>

    constructor (p: Packet)
      ensures packet == p && fields == map[]
    {
      packet := p;
      fields := map[];
    }
  }

  /** `ParsePacket`: an empty packet is an error; otherwise the high nibble of
      the first byte picks the decoder (4: IPv4, 6: IPv6, anything else:
      Ethernet), and `decode` stands for gopacket. */
  function ParsePacket(raw: seq<byte>, decode: (Decoder, seq<byte>) -> Layers): (r: Result<Packet, EngineError>)
    ensures r.Err? <==> raw == []
    ensures r.Err? ==> r.error == EmptyPacket
    ensures r.Ok? ==> r.value.raw == raw
    ensures r.Ok? ==> (r.value.decoder == DecodeIPv4 <==> raw[0] / 16 == 4)
    ensures r.Ok? ==> (r.value.decoder == DecodeIPv6 <==> raw[0] / 16 == 6)
    ensures r.Ok? ==> r.value.layers == decode(r.value.decoder, raw)
  {
    if raw == [] then Err(EmptyPacket)
    else
      var version := raw[0] / 16;
      var decoder := if version == 4 then DecodeIPv4 else if version == 6 then DecodeIPv6 else DecodeEthernet;
      Ok(Packet(raw, decoder, decode(decoder, raw)))
  }

  /** The text `fmt.Sprintf("%s:%d -> %s:%d [%s]", ...)` builds. */
  function TupleText(srcIp: string, srcPort: nat, dstIp: string, dstPort: nat, proto: string): (t: string)
    ensures HasPrefix(t, srcIp + ":")
    ensures HasSuffix(t, " [" + proto + "]")
  {
    var head := srcIp + ":";
    var mid := Itoa(srcPort) + " -> " + dstIp + ":" + Itoa(dstPort);
    var tail := " [" + proto + "]";
    assert (head + mid + tail)[..|head|] == head;
    assert (head + mid + tail)[|head + mid + tail| - |tail|..] == tail;
    head + mid + tail
  }

  /** The 5-tuple text reads back: its words are "src:port", "->",
      "dst:port" and "[proto]", for addresses and a protocol name without
      blanks. */
  lemma TupleTextWords(srcIp: string, srcPort: nat, dstIp: string, dstPort: nat, proto: string)
    requires ' ' !in srcIp && ' ' !in dstIp && ' ' !in proto
    ensures Split(TupleText(srcIp, srcPort, dstIp, dstPort, proto), ' ')
         == [srcIp + ":" + Itoa(srcPort), "->", dstIp + ":" + Itoa(dstPort), "[" + proto + "]"]
  {
    var sp, dp := Itoa(srcPort), Itoa(dstPort);
    DigitsNoSeparator(sp);
    DigitsNoSeparator(dp);
    NoSpaceJoined(srcIp, sp);
    NoSpaceJoined(dstIp, dp);
    NoSpaceBracketed(proto);
    var a, c, d := srcIp + ":" + sp, dstIp + ":" + dp, "[" + proto + "]";
    assert TupleText(srcIp, srcPort, dstIp, dstPort, proto) == a + " -> " + c + " " + d by {
      assert " [" + proto + "]" == " " + d;
      assert (srcIp + ":") + (sp + " -> " + dstIp + ":" + dp) + (" " + d) == a + " -> " + c + " " + d;
    }
    SplitWords(a, c, d);
  }

  lemma SplitWords(a: string, c: string, d: string)
    requires ' ' !in a && ' ' !in c && ' ' !in d
    ensures Split(a + " -> " + c + " " + d, ' ') == [a, "->", c, d]
  {
    var w := [a, "->", c, d];
    assert Join(w, ' ') == a + " -> " + c + " " + d by {
      JoinFour(a, "->", c, d);
      assert a + " -> " + c + " " + d == a + [' '] + "->" + [' '] + c + [' '] + d;
    }
    assert Split(Join(w, ' '), ' ') == w by {
      assert forall i :: 0 <= i < |w| ==> ' ' !in w[i];
      SplitJoin(w, ' ');
    }
  }


  lemma NoSpaceBracketed(proto: string)
    requires ' ' !in proto
    ensures ' ' !in "[" + proto + "]"
  {
    var d := "[" + proto + "]";
    assert forall k :: 0 <= k < |d| ==> d[k] == '[' || d[k] == ']' || d[k] in proto;
  }

  /** Each "address:port" word of the 5-tuple splits at its colon into the
      address and the port's decimal text, which parses back to the port. */
  lemma TupleTextAddress(ip: string, port: nat)
    requires ':' !in ip && port <= MaxUint16
    ensures Split(ip + ":" + Itoa(port), ':') == [ip, Itoa(port)]
    ensures ParseInt64(Itoa(port)) == Ok(port)
  {
    DigitsNoSeparator(Itoa(port));
    assert Join([ip, Itoa(port)], ':') == ip + ":" + Itoa(port);
    SplitJoin([ip, Itoa(port)], ':');
    ParseItoa(port);
  }

  lemma NoSpaceJoined(ip: string, port: string)
    requires ' ' !in ip && ' ' !in port
    ensures ' ' !in ip + ":" + port
  {
    var t := ip + ":" + port;
    assert forall k :: 0 <= k < |t| ==> t[k] == ':' || t[k] in ip || t[k] in port;
  }

  lemma JoinFour(a: string, b: string, c: string, d: string)
    ensures Join([a, b, c, d], ' ') == a + [' '] + b + [' '] + c + [' '] + d
  {
    var w := [a, b, c, d];
    assert w[1..] == [b, c, d] && w[1..][1..] == [c, d] && w[1..][1..][1..] == [d];
    assert Join([c, d], ' ') == c + [' '] + d;
    assert Join([b, c, d], ' ') == b + [' '] + (c + [' '] + d);
  }


  lemma DigitsNoSeparator(s: string)
    requires forall i :: 0 <= i < |s| ==> IsDigit(s[i])
    ensures ' ' !in s && ':' !in s
  {
  }

  /** The transport protocol name `Get5Tuple` reports: TCP before UDP, then
      the IPv4 protocol's name. */
  function ProtocolName(layers: Layers): string {
    if layers.tcp.Some? then "TCP"
    else if layers.udp.Some? then "UDP"
    else if layers.ipv4.Some? then layers.ipv4.value.protocolName
    else "unknown"
  }

  /** `Get5Tuple`: "src:port -> dst:port [proto]", or "Non-IP Packet" when
      there is no source address. */
  function Get5Tuple(layers: Layers): (t: string)
    ensures layers.ipv4.None? ==> t == "Non-IP Packet"
    ensures layers.ipv4.Some? && layers.ipv4.value.srcIp != "" ==>
      HasPrefix(t, layers.ipv4.value.srcIp + ":") && HasSuffix(t, " [" + ProtocolName(layers) + "]")
  {
    var srcIp := if layers.ipv4.Some? then layers.ipv4.value.srcIp else "";
    var dstIp := if layers.ipv4.Some? then layers.ipv4.value.dstIp else "";
    var ports :=
      if layers.tcp.Some? then layers.tcp.value
      else if layers.udp.Some? then layers.udp.value
      else PortLayer(0, 0);
    if srcIp == "" then "Non-IP Packet"
    else TupleText(srcIp, ports.srcPort, dstIp, ports.dstPort, ProtocolName(layers))
  }

  // ---------------------------------------------------------------------------
  // Big-endian decoding
  // ---------------------------------------------------------------------------

  function Pow256(n: nat): (p: nat)
    ensures p >= 1
  {
    if n == 0 then 1 else 256 * Pow256(n - 1)
  }

  /** The unsigned big-endian value of a byte string. */
  function BigEndian(data: seq<byte>): nat {
    if data == [] then 0 else BigEndian(data[..|data| - 1]) * 256 + data[|data| - 1]
  }

  lemma {:induction false} BigEndianBound(data: seq<byte>)
    ensures BigEndian(data) < Pow256(|data|)
  {
    if data != [] {
      var init := data[..|data| - 1];
      BigEndianBound(init);
      assert BigEndian(init) <= Pow256(|init|) - 1;
      assert BigEndian(data) <= (Pow256(|init|) - 1) * 256 + 255;
    }
  }

  /** `bytesToDecimal`: every branch (1, 2, 4, 8 bytes through
      `binary.BigEndian`, any other length through the shift loop) yields the
      big-endian value wrapped into int64. */
  function DecimalOf(data: seq<byte>): (n: int)
    ensures InInt64(n)
  {
    Wrap64(BigEndian(data))
  }

  lemma {:induction false} Pow256Monotone(n: nat, m: nat)
    requires n <= m
    ensures Pow256(n) <= Pow256(m)
    decreases m - n
  {
    if n < m {
      Pow256Monotone(n + 1, m);
    }
  }

  lemma Pow256Seven(n: nat)
    requires n <= 7
    ensures Pow256(n) <= 0x100_0000_0000_0000
  {
    Pow256Monotone(n, 7);
    assert Pow256(2) == 0x1_0000;
    assert Pow256(4) == 0x1_0000_0000 by { assert Pow256(3) == 0x100_0000; }
    assert Pow256(7) == 0x100_0000_0000_0000 by {
      assert Pow256(5) == 0x100_0000_0000;
      assert Pow256(6) == 0x1_0000_0000_0000;
    }
  }

  /** Up to seven bytes never overflow int64. */
  lemma DecimalExact(data: seq<byte>)
    requires |data| <= 7
    ensures DecimalOf(data) == BigEndian(data)
  {
    BigEndianBound(data);
    Pow256Seven(|data|);
  }

  lemma Wrap64Congruent(x: int, y: int)
    requires (x - y) % TwoTo64 == 0
    ensures Wrap64(x) == Wrap64(y)
  {
    var k := (x - y) / TwoTo64;
    assert x == y + k * TwoTo64;
    assert (y + k * TwoTo64) % TwoTo64 == y % TwoTo64;
  }

  lemma Wrap64Shift(x: int, b: byte)
    ensures Wrap64(Wrap64(x) * 256 + b) == Wrap64(x * 256 + b)
  {
    var d := x - Wrap64(x);
    var k := d / TwoTo64;
    assert d == k * TwoTo64;
    assert (x * 256 + b) - (Wrap64(x) * 256 + b) == (k * 256) * TwoTo64;
    Wrap64Congruent(x * 256 + b, Wrap64(x) * 256 + b);
  }

  /** `bytesToDecimal`, with its length switch and its accumulator loop
      (`(result << 8) | b` on int64 is `Wrap64(result * 256 + b)`: the shift
      clears the low byte the `|` then fills). */
  method BytesToDecimal(data: seq<byte>) returns (result: int)
    ensures result == DecimalOf(data)
  {
    if |data| == 1 {
      result := data[0];
      assert data[..0] == [];
      DecimalExact(data);
    } else if |data| == 2 || |data| == 4 {
      result := BigEndian(data);
      DecimalExact(data);
    } else if |data| == 8 {
      result := Wrap64(BigEndian(data));
    } else {
      result := 0;
      var i := 0;
      while i < |data|
        invariant 0 <= i <= |data|
        invariant result == Wrap64(BigEndian(data[..i]))
      {
        assert data[..i + 1][..i] == data[..i];
        Wrap64Shift(BigEndian(data[..i]), data[i]);
        result := Wrap64(result * 256 + data[i]);
        i := i + 1;
      }
      assert data[..i] == data;
    }
  }

  // ---------------------------------------------------------------------------
  // Field extraction
  // ---------------------------------------------------------------------------

  /** `extractBuiltinField`: the 5-tuple members by (lower-cased) name. */
  function ExtractBuiltinField(layers: Layers, name: string): (r: Result<Value, EngineError>)
    ensures r.Err? ==> r.error == BuiltinUnavailable(name)
    ensures r.Ok? ==> r.value != Null
  {
    var key := ToLower(name);
    if key == "src_ip" && layers.ipv4.Some? then Ok(Str(layers.ipv4.value.srcIp))
    else if key == "dst_ip" && layers.ipv4.Some? then Ok(Str(layers.ipv4.value.dstIp))
    else if key == "src_port" && layers.tcp.Some? then Ok(I(layers.tcp.value.srcPort))
    else if key == "src_port" && layers.udp.Some? then Ok(I(layers.udp.value.srcPort))
    else if key == "dst_port" && layers.tcp.Some? then Ok(I(layers.tcp.value.dstPort))
    else if key == "dst_port" && layers.udp.Some? then Ok(I(layers.udp.value.dstPort))
    else if key == "protocol" && layers.ipv4.Some? then Ok(I(layers.ipv4.value.protocol))
    else Err(BuiltinUnavailable(name))
  }

  /** How a non-builtin field's bytes become a value. */
  function DecodeSlice(data: seq<byte>, kind: string): Value {
    if kind == "decimal" then I64(DecimalOf(data))
    else if kind == "string" then Str(TrimRightChar(BytesToString(data), '\0'))
    else Str(HexEncode(data))   // "hex" and every unknown type
  }

  /** `ExtractField`: a non-builtin field is rejected when its offset is
      negative or its (wrapped) end lies past the packet; a field that passes
      that check but ends before it starts (a negative length, or an end that
      wrapped) makes the slice expression panic; any other field decodes its
      own bytes. */
  function ExtractField(p: Packet, f: Field): (r: Result<Value, EngineError>)
    ensures f.kind != "builtin" ==>
      (r == Err(InvalidOffset(f.name)) <==> f.offset < 0 || FieldEnd(f) > |p.raw|)
    ensures f.kind != "builtin" ==>
      (r == Err(SliceOutOfRange) <==> 0 <= f.offset && FieldEnd(f) <= |p.raw| && FieldEnd(f) < f.offset)
    ensures f.kind != "builtin" && r.Ok? ==> 0 <= f.length && f.offset + f.length <= |p.raw|
    ensures r.Ok? ==> r.value != Null
  {
    if f.kind == "builtin" then ExtractBuiltinField(p.layers, f.name)
    else
      var end := FieldEnd(f);
      if f.offset < 0 || end > |p.raw| then Err(InvalidOffset(f.name))
      else if end < f.offset then Err(SliceOutOfRange)
      else
        assert InInt64(f.offset + f.length) by { WrapBelow(f.offset, f.length, end); }
        Ok(DecodeSlice(p.raw[f.offset..end], f.kind))
  }

  /** With a non-negative offset, a wrapped end that is not below the offset
      is the exact sum only when the length is non-negative: a sum that
      wrapped from above lies below the offset. */
  lemma WrapBelow(offset: int, length: int, end: int)
    requires InInt64(offset) && InInt64(length)
    requires end == Wrap64(offset + length)
    requires 0 <= offset <= end
    ensures InInt64(offset + length)
  {
  }

  /** A field whose slice expression panics: not builtin, past the bounds
      check, and ending before it starts. */
  predicate PanicsOn(p: Packet, f: Field) {
    ExtractField(p, f) == Err(SliceOutOfRange)
  }

  /** A negative length that the bounds check lets through panics: offset
      10 and length -3 on a 20-byte packet slices `raw[10:7]`. */
  lemma NegativeLengthPanics(p: Packet, f: Field)
    requires f.kind != "builtin" && f.length < 0
    requires 0 <= f.offset && f.offset + f.length <= |p.raw|
    ensures PanicsOn(p, f)
  {
  }

  /** An end that wraps past the largest `int` passes the bounds check as a
      negative number and panics the same way. */
  lemma WrappedEndPanics(p: Packet, f: Field)
    requires f.kind != "builtin" && 0 <= f.offset && f.offset + f.length > MaxInt64
    ensures PanicsOn(p, f)
  {
    var sum := f.offset + f.length;
    assert 0 <= sum < TwoTo64 && sum % TwoTo64 == sum;
    assert FieldEnd(f) == sum - TwoTo64 < 0;
  }

  /** A non-builtin field reads bytes [offset, offset+length) and nothing else:
      two packets that agree there give the same value. */
  lemma ExtractFieldReadsOnlyItsSlice(p: Packet, q: Packet, f: Field)
    requires f.kind != "builtin"
    requires Inside(f, |p.raw|) && Inside(f, |q.raw|)
    requires p.raw[f.offset..f.offset + f.length] == q.raw[f.offset..f.offset + f.length]
    ensures ExtractField(p, f) == ExtractField(q, f)
  {
  }

  /** A non-builtin field inside the packet decodes exactly its own bytes. */
  lemma ExtractFieldInside(p: Packet, f: Field)
    requires f.kind != "builtin" && Inside(f, |p.raw|)
    ensures ExtractField(p, f) == Ok(DecodeSlice(p.raw[f.offset..f.offset + f.length], f.kind))
  {
    assert FieldEnd(f) == f.offset + f.length;
  }

  /** A hex (or unknown-type) field holds the lower-case hex of its bytes,
      which decodes back to exactly those bytes. */
  lemma HexFieldDecodes(p: Packet, f: Field)
    requires f.kind != "builtin" && f.kind != "decimal" && f.kind != "string"
    requires Inside(f, |p.raw|)
    ensures ExtractField(p, f).Ok? && ExtractField(p, f).value.Str?
    ensures HexDecode(ExtractField(p, f).value.s) == Ok(p.raw[f.offset..f.offset + f.length])
  {
    var data := p.raw[f.offset..f.offset + f.length];
    ExtractFieldInside(p, f);
    assert DecodeSlice(data, f.kind) == Str(HexEncode(data));
    HexRoundTrip(data);
  }

  /** A string field drops trailing NUL bytes only: the bytes are the value
      followed by NULs, and the value does not end in NUL. */
  lemma StringFieldTrimsNul(p: Packet, f: Field)
    requires f.kind == "string"
    requires Inside(f, |p.raw|)
    ensures ExtractField(p, f).Ok? && ExtractField(p, f).value.Str?
    ensures var s := ExtractField(p, f).value.s;
      var text := BytesToString(p.raw[f.offset..f.offset + f.length]);
      && s == text[..|s|]
      && (forall i :: |s| <= i < |text| ==> text[i] == '\0')
      && (s == [] || s[|s| - 1] != '\0')
  {
  }

  /** A decimal field of up to seven bytes holds their exact big-endian value. */
  lemma DecimalFieldExact(p: Packet, f: Field)
    requires f.kind == "decimal" && f.length <= 7
    requires Inside(f, |p.raw|)
    ensures ExtractField(p, f) == Ok(I64(BigEndian(p.raw[f.offset..f.offset + f.length])))
  {
    DecimalExact(p.raw[f.offset..f.offset + f.length]);
  }

  /** What `ExtractAllFields` stores for one field: its value, or nil when
      extraction failed. */
  function StoredValue(p: Packet, f: Field): Value {
    match ExtractField(p, f)
    case Ok(v) => v
    case Err(_) => Null
  }

  /** The field map after `ExtractAllFields` has processed `defs` in order. */
  function ExtractedFields(m: map<string, Value>, p: Packet, defs: seq<Field>): map<string, Value>
  {
    if defs == [] then m
    else ExtractedFields(m, p, defs[..|defs| - 1])[defs[|defs| - 1].name := StoredValue(p, defs[|defs| - 1])]
  }

  /** Extraction adds exactly the defined names to the map. */
  lemma {:induction false} ExtractedFieldsKeys(m: map<string, Value>, p: Packet, defs: seq<Field>)
    ensures ExtractedFields(m, p, defs).Keys == m.Keys + set f | f in defs :: f.name
  {
    if defs != [] {
      var init := defs[..|defs| - 1];
      ExtractedFieldsKeys(m, p, init);
      assert defs == init + [defs[|defs| - 1]];
      assert (set f | f in defs :: f.name) == (set f | f in init :: f.name) + {defs[|defs| - 1].name};
    }
  }

  /** A name no field defines keeps its previous entry. */
  lemma {:induction false} ExtractedFieldsUntouched(m: map<string, Value>, p: Packet, defs: seq<Field>, k: string)
    requires forall i :: 0 <= i < |defs| ==> defs[i].name != k
    ensures Lookup(ExtractedFields(m, p, defs), k) == Lookup(m, k)
  {
    if defs != [] {
      ExtractedFieldsUntouched(m, p, defs[..|defs| - 1], k);
    }
  }

  /** When several fields share a name, the last of them wins. */
  lemma {:induction false} ExtractedFieldsLastWins(m: map<string, Value>, p: Packet, defs: seq<Field>, i: nat)
    requires i < |defs|
    requires forall j :: i < j < |defs| ==> defs[j].name != defs[i].name
    ensures Lookup(ExtractedFields(m, p, defs), defs[i].name) == StoredValue(p, defs[i])
  {
    var init := defs[..|defs| - 1];
    if i < |defs| - 1 {
      ExtractedFieldsLastWins(m, p, init, i);
    }
  }

  /** Some field of `defs` makes extraction panic. */
  predicate ExtractionPanics(p: Packet, defs: seq<Field>) {
    exists i :: 0 <= i < |defs| && PanicsOn(p, defs[i])
  }

  /** One more field panics the prefix exactly when it panics itself or the
      shorter prefix did. */
  lemma ExtractionPanicsSnoc(p: Packet, defs: seq<Field>, i: nat)
    requires i < |defs|
    ensures ExtractionPanics(p, defs[..i + 1]) <==> ExtractionPanics(p, defs[..i]) || PanicsOn(p, defs[i])
  {
    var a, b := defs[..i], defs[..i + 1];
    assert forall j :: 0 <= j < i ==> a[j] == b[j];
    assert b[i] == defs[i];
  }

  /** `ExtractAllFields`: writes every field's value (nil on failure) into the
      context's map, in order, and always returns nil, unless a field's slice
      panics: the loop then stops there (`panicked`), with the fields before
      it written. */
  method ExtractAllFields(ctx: PacketContext, defs: seq<Field>) returns (panicked: bool)
    modifies ctx
    ensures panicked == ExtractionPanics(ctx.packet, defs)
    ensures !panicked ==> ctx.fields == ExtractedFields(old(ctx.fields), ctx.packet, defs)
    ensures panicked ==>
      exists k :: && 0 <= k < |defs| && PanicsOn(ctx.packet, defs[k])
                  && !ExtractionPanics(ctx.packet, defs[..k])
                  && ctx.fields == ExtractedFields(old(ctx.fields), ctx.packet, defs[..k])
  {
    ghost var start := ctx.fields;
    ghost var p := ctx.packet;
    var i := 0;
    while i < |defs|
      invariant 0 <= i <= |defs|
      invariant ctx.fields == ExtractedFields(start, p, defs[..i])
      invariant !ExtractionPanics(p, defs[..i])
    {
      var value := ExtractField(ctx.packet, defs[i]);
      ExtractionPanicsSnoc(p, defs, i);
      if value == Err(SliceOutOfRange) {
        assert PanicsOn(p, defs[i]);
        assert ExtractionPanics(p, defs) by {
          assert 0 <= i < |defs|;
        }
        return true;
      }
      assert defs[..i + 1][..i] == defs[..i];
      if value.Err? {
        ctx.fields := ctx.fields[defs[i].name := Null];
      } else {
        ctx.fields := ctx.fields[defs[i].name := value.value];
      }
      i := i + 1;
    }
    assert defs[..i] == defs;
    return false;
  }

  // ---------------------------------------------------------------------------
  // Comparison and display
  // ---------------------------------------------------------------------------

  /** `fmt.Sprintf("%v", v)`. */
  function FormatDefault(v: Value): string {
    match v
    case Null => "<nil>"
    case Str(s) => s
    case I64(n) => Itoa(n)
    case I(n) => Itoa(n)
  }

  /** The hex comparison's normal form: lower case, spaces removed. */
  function HexNormal(s: string): string {
    RemoveChar(ToLower(s), ' ')
  }

  /** `CompareFieldValue`: nil never matches; "hex" compares normalised
      strings, "decimal" an int64 with a parsed literal, "string" a string
      with the literal stripped of surrounding quotes, any other type the
      `%v` text. */
  function CompareFieldValue(actual: Value, expected: string, kind: string): bool {
    if actual.Null? then false
    else if kind == "hex" then actual.Str? && HexNormal(actual.s) == HexNormal(expected)
    else if kind == "decimal" then actual.I64? && ParseInt64(expected) == Ok(actual.n)
    else if kind == "string" then actual.Str? && actual.s == TrimChar(expected, '"')
    else FormatDefault(actual) == expected
  }

  /** The comparison rules, each as stated for the caller. */
  lemma CompareFieldValueRules(actual: Value, expected: string, kind: string)
    ensures actual.Null? ==> !CompareFieldValue(actual, expected, kind)
    ensures kind == "hex" ==> (CompareFieldValue(actual, expected, kind) <==>
      actual.Str? && HexNormal(actual.s) == HexNormal(expected))
    ensures kind == "decimal" ==> (CompareFieldValue(actual, expected, kind) <==>
      actual.I64? && ParseInt64(expected).Ok? && ParseInt64(expected).value == actual.n)
    ensures kind == "string" ==> (CompareFieldValue(actual, expected, kind) <==>
      actual.Str? && actual.s == TrimChar(expected, '"'))
  {
  }

  /** Hex comparison ignores letter case and spaces on both sides. */
  lemma HexCompareIgnoresCaseAndSpaces(actual: string, expected: string)
    ensures CompareFieldValue(Str(actual), expected, "hex") ==
            CompareFieldValue(Str(HexNormal(actual)), HexNormal(expected), "hex")
  {
    LowerRemoveIdempotent(actual);
    LowerRemoveIdempotent(expected);
  }

  lemma {:induction false} LowerRemoveIdempotent(s: string)
    ensures HexNormal(HexNormal(s)) == HexNormal(s)
  {
    var l := ToLower(s);
    forall x | x in l ensures !('A' <= x <= 'Z') {
      var i :| 0 <= i < |l| && l[i] == x;
    }
    LowerOfLowerFree(RemoveChar(l, ' '));
    RemoveCharAbsent(ToLower(RemoveChar(ToLower(s), ' ')), ' ');
  }

  lemma {:induction false} LowerOfLowerFree(s: string)
    requires forall x :: x in s ==> !('A' <= x <= 'Z')
    ensures ToLower(s) == s
  {
    if s != [] {
      assert s[0] in s;
      assert forall x :: x in s[1..] ==> x in s;
      LowerOfLowerFree(s[1..]);
    }
  }

  lemma RemoveCharAbsent(s: string, c: char)
    requires c !in s
    ensures RemoveChar(s, c) == s
  {
  }

  /** A decimal field compares equal to its own decimal text. */
  lemma DecimalMatchesItsText(n: int)
    requires InInt64(n)
    ensures CompareFieldValue(I64(n), Itoa(n), "decimal")
  {
    ParseItoa(n);
  }

  // %q as used by FormatFieldValue -------------------------------------------

  /** The byte a character of a Go string stands for. */
  function ByteOf(c: char): nat {
    c as int % 256
  }

  const RuneError: int := 0xFFFD
  const MaxRune: int := 0x10FFFF

  /** `utf8.ValidRune`: a Unicode scalar value, no surrogate half. */
  predicate ValidRune(r: int) {
    (0 <= r < 0xD800) || (0xDFFF < r <= MaxRune)
  }

  predicate InByteRange(c: char, lo: nat, hi: nat) {
    lo <= ByteOf(c) <= hi
  }

  /** `utf8.DecodeRuneInString` on a non-empty string: the rune its first
      bytes encode and how many bytes that takes, or (RuneError, 1) when they
      are not a complete, shortest-form UTF-8 encoding of a valid rune. */
  function DecodeRune(s: string): (d: (int, nat))
    requires s != []
    ensures 1 <= d.1 <= |s| && d.1 <= 4 && ValidRune(d.0)
    ensures d.1 == 1 ==> d.0 == ByteOf(s[0]) < 0x80 || d.0 == RuneError
  {
    var b0 := ByteOf(s[0]);
    if b0 < 0x80 then (b0, 1)
    else if 0xC2 <= b0 <= 0xDF then
      if |s| >= 2 && InByteRange(s[1], 0x80, 0xBF) then ((b0 - 0xC0) * 64 + (ByteOf(s[1]) - 0x80), 2)
      else (RuneError, 1)
    else if 0xE0 <= b0 <= 0xEF then
      var lo := if b0 == 0xE0 then 0xA0 else 0x80;
      var hi := if b0 == 0xED then 0x9F else 0xBF;
      if |s| >= 3 && InByteRange(s[1], lo, hi) && InByteRange(s[2], 0x80, 0xBF) then
        ((b0 - 0xE0) * 4096 + (ByteOf(s[1]) - 0x80) * 64 + (ByteOf(s[2]) - 0x80), 3)
      else (RuneError, 1)
    else if 0xF0 <= b0 <= 0xF4 then
      var lo := if b0 == 0xF0 then 0x90 else 0x80;
      var hi := if b0 == 0xF4 then 0x8F else 0xBF;
      if |s| >= 4 && InByteRange(s[1], lo, hi) && InByteRange(s[2], 0x80, 0xBF) && InByteRange(s[3], 0x80, 0xBF) then
        ((b0 - 0xF0) * 262144 + (ByteOf(s[1]) - 0x80) * 4096 + (ByteOf(s[2]) - 0x80) * 64 + (ByteOf(s[3]) - 0x80), 4)
      else (RuneError, 1)
    else (RuneError, 1)
  }

  /** `utf8.AppendRune`: the UTF-8 bytes of a valid rune, its value cut into
      six-bit groups from the low end. */
  function EncodeRune(r: int): (s: string)
    requires ValidRune(r)
    ensures 1 <= |s| <= 4
  {
    var c3, q1 := r % 64, r / 64;
    var c2, q2 := q1 % 64, q1 / 64;
    var c1, c0 := q2 % 64, q2 / 64;
    if r < 0x80 then [r as char]
    else if r < 0x800 then [(0xC0 + q1) as char, (0x80 + c3) as char]
    else if r < 0x10000 then [(0xE0 + q2) as char, (0x80 + c2) as char, (0x80 + c3) as char]
    else [(0xF0 + c0) as char, (0x80 + c1) as char, (0x80 + c2) as char, (0x80 + c3) as char]
  }

  /** Decoding the encoding of a valid rune, whatever follows it, gives the
      rune back and consumes exactly its bytes. */
  lemma DecodeEncodeRune(r: int, rest: string)
    requires ValidRune(r)
    ensures DecodeRune(EncodeRune(r) + rest) == (r, |EncodeRune(r)|)
  {
    var c3, q1 := r % 64, r / 64;
    var c2, q2 := q1 % 64, q1 / 64;
    var c1, c0 := q2 % 64, q2 / 64;
    assert r == 64 * q1 + c3 && q1 == 64 * q2 + c2 && q2 == 64 * c0 + c1;
    if r >= 0x10000 {
      DecodeFour(r, c0, c1, c2, c3, EncodeRune(r) + rest);
    } else if r >= 0x800 {
      DecodeThree(r, q2, c2, c3, EncodeRune(r) + rest);
    } else if r >= 0x80 {
      DecodeTwo(r, q1, c3, EncodeRune(r) + rest);
    }
  }

  lemma DecodeTwo(r: int, q1: int, c3: int, s: string)
    requires 0x80 <= r < 0x800 && r == 64 * q1 + c3 && 0 <= c3 < 64
    requires |s| >= 2 && s[0] as int == 0xC0 + q1 && s[1] as int == 0x80 + c3
    ensures DecodeRune(s) == (r, 2)
  {
  }

  lemma DecodeThree(r: int, q2: int, c2: int, c3: int, s: string)
    requires ValidRune(r) && 0x800 <= r < 0x10000 && r == 4096 * q2 + 64 * c2 + c3
    requires 0 <= c2 < 64 && 0 <= c3 < 64
    requires |s| >= 3 && s[0] as int == 0xE0 + q2 && s[1] as int == 0x80 + c2 && s[2] as int == 0x80 + c3
    ensures DecodeRune(s) == (r, 3)
  {
    assert 0 <= q2 < 16;
    var b0, b1, b2 := ByteOf(s[0]), ByteOf(s[1]), ByteOf(s[2]);
    assert b0 == 0xE0 + q2 && b1 == 0x80 + c2 && b2 == 0x80 + c3;
    assert q2 == 0 ==> 0x20 <= c2;
    assert q2 == 13 ==> c2 < 0x20;
    assert InByteRange(s[1], if b0 == 0xE0 then 0xA0 else 0x80, if b0 == 0xED then 0x9F else 0xBF);
    assert InByteRange(s[2], 0x80, 0xBF);
  }

  lemma DecodeFour(r: int, c0: int, c1: int, c2: int, c3: int, s: string)
    requires 0x10000 <= r <= MaxRune && r == 262144 * c0 + 4096 * c1 + 64 * c2 + c3
    requires 0 <= c1 < 64 && 0 <= c2 < 64 && 0 <= c3 < 64
    requires |s| >= 4 && s[0] as int == 0xF0 + c0 && s[1] as int == 0x80 + c1
    requires s[2] as int == 0x80 + c2 && s[3] as int == 0x80 + c3
    ensures DecodeRune(s) == (r, 4)
  {
    assert 0 <= c0 <= 4;
    var b0 := ByteOf(s[0]);
    assert b0 == 0xF0 + c0;
    assert c0 == 0 ==> 0x10 <= c1;
    assert c0 == 4 ==> c1 < 0x10;
    assert InByteRange(s[1], if b0 == 0xF0 then 0x90 else 0x80, if b0 == 0xF4 then 0x8F else 0xBF);
    assert InByteRange(s[2], 0x80, 0xBF) && InByteRange(s[3], 0x80, 0xBF);
  }

  /** The runes' encodings, one after the other. */
  function EncodeRunes(rs: seq<int>): string
    requires forall i :: 0 <= i < |rs| ==> ValidRune(rs[i])
  {
    if rs == [] then "" else EncodeRune(rs[0]) + EncodeRunes(rs[1..])
  }

  /** `strconv.IsPrint`: exact for Latin-1 (printable ASCII, and U+00A1 to
      U+00FF except the soft hyphen); above U+00FF strconv's Unicode tables,
      given as `wide`. */
  predicate IsPrint(r: int, wide: int -> bool) {
    if r <= 0xFF then (0x20 <= r <= 0x7E) || (0xA1 <= r <= 0xFF && r != 0xAD)
    else wide(r)
  }

  /** The `n` low-order hexadecimal digits of `v`, lower case, most
      significant first. */
  function LowHex(v: nat, n: nat): (s: string)
    ensures |s| == n
  {
    if n == 0 then "" else LowHex(v / 16, n - 1) + [HexDigit(v % 16)]
  }

  /** strconv's `appendEscapedRune` for a valid rune: the quote and the
      backslash are escaped, a printable rune is written as UTF-8, the seven
      C escapes are used where they apply, and any other rune is written as
      \xNN below U+0020 and for U+007F, \uNNNN below U+10000 and \UNNNNNNNN
      above. */
  function EscapeRune(r: int, quote: char, wide: int -> bool): string
    requires ValidRune(r)
  {
    if r == quote as int || r == '\\' as int then ['\\'] + EncodeRune(r)
    else if IsPrint(r, wide) then EncodeRune(r)
    else if r == 0x07 then "\\a"
    else if r == 0x08 then "\\b"
    else if r == 0x0C then "\\f"
    else if r == 0x0A then "\\n"
    else if r == 0x0D then "\\r"
    else if r == 0x09 then "\\t"
    else if r == 0x0B then "\\v"
    else if r < 0x20 || r == 0x7F then "\\x" + LowHex(r, 2)
    else if r < 0x10000 then "\\u" + LowHex(r, 4)
    else "\\U" + LowHex(r, 8)
  }

  /** strconv's `appendQuotedWith` between the quotes: the text is read rune
      by rune, and a byte that starts no valid encoding is written \xNN. */
  function QuoteBody(s: string, quote: char, wide: int -> bool): string
    decreases |s|
  {
    if s == [] then ""
    else
      var d := DecodeRune(s);
      (if d.1 == 1 && d.0 == RuneError then "\\x" + LowHex(ByteOf(s[0]), 2)
       else EscapeRune(d.0, quote, wide))
      + QuoteBody(s[d.1..], quote, wide)
  }

  /** `strconv.Quote` (what `%q` prints for a string). */
  function Quote(s: string, wide: int -> bool): string {
    "\"" + QuoteBody(s, '"', wide) + "\""
  }

  /** `%q` of an integer: fmt's `fmtQc`, a quoted character literal, with
      U+FFFD standing for anything that is not a valid rune (a negative
      number included, as fmt reads it unsigned). */
  function QuoteRune(n: int, wide: int -> bool): string {
    var r := if ValidRune(n) then n else RuneError;
    "'" + EscapeRune(r, '\'', wide) + "'"
  }

  /** `%!verb(type=value)`, fmt's text for a verb that does not fit the value. */
  function BadVerb(verb: char, v: Value): string {
    var typeName := match v case Str(_) => "string" case I64(_) => "int64" case I(_) => "int" case Null => "<nil>";
    "%!" + [verb] + "(" + typeName + "=" + FormatDefault(v) + ")"
  }

  /** `FormatFieldValue`: nil is "<not available>"; then `%s`, `%d`, `%q` or
      `%v` by field type. */
  function FormatFieldValue(v: Value, kind: string, wide: int -> bool): string {
    if v.Null? then "<not available>"
    else if kind == "hex" then (if v.Str? then v.s else BadVerb('s', v))
    else if kind == "decimal" then (if v.Str? then BadVerb('d', v) else Itoa(v.n))
    else if kind == "string" then (if v.Str? then Quote(v.s, wide) else QuoteRune(v.n, wide))
    else FormatDefault(v)
  }

  /** What the test view shows for nil, and for a field type other than
      hex, decimal and string: "<not available>", and `%v`. */
  lemma FormatNilAndDefault(v: Value, kind: string, wide: int -> bool)
    ensures v.Null? ==> FormatFieldValue(v, kind, wide) == "<not available>"
    ensures !v.Null? && kind != "hex" && kind != "decimal" && kind != "string" ==>
      FormatFieldValue(v, kind, wide) == FormatDefault(v)
  {
  }

  /** A hex field shows a string as itself and an integer as fmt's bad-verb
      text for %s, which ends with the number. */
  lemma FormatHexValue(v: Value, wide: int -> bool)
    requires !v.Null?
    ensures var r := FormatFieldValue(v, "hex", wide);
      && (v.Str? ==> r == v.s)
      && (!v.Str? ==> HasPrefix(r, "%!s(") && HasSuffix(r, "=" + Itoa(v.n) + ")"))
  {
    if !v.Str? {
      var r := FormatFieldValue(v, "hex", wide);
      var t := if v.I64? then "int64" else "int";
      var tail := "=" + Itoa(v.n) + ")";
      assert r == "%!s(" + t + tail;
      FramedText("%!s(", t, tail);
    }
  }

  /** Text put between a head and a tail starts with the head and ends with
      the tail. */
  lemma FramedText(head: string, t: string, tail: string)
    ensures HasPrefix(head + t + tail, head) && HasSuffix(head + t + tail, tail)
  {
    var r := head + t + tail;
    assert r[..|head|] == head;
    assert r[|r| - |tail|..] == tail;
  }

  /** A decimal field shows an int64 as decimal text that reads back as the
      number, and a string as fmt's bad-verb text for %d. */
  lemma FormatDecimalValue(v: Value, wide: int -> bool)
    requires !v.Null?
    ensures var r := FormatFieldValue(v, "decimal", wide);
      && (!v.Str? && InInt64(v.n) ==> ParseInt64(r) == Ok(v.n))
      && (v.Str? ==> r == "%!d(string=" + v.s + ")")
  {
    if !v.Str? && InInt64(v.n) {
      ParseItoa(v.n);
    }
  }

  /** A string field shows a string between double quotes and an integer
      between single quotes, a printable rune as its own UTF-8. */
  lemma FormatStringValue(v: Value, wide: int -> bool)
    requires !v.Null?
    ensures var r := FormatFieldValue(v, "string", wide);
      && |r| >= 2 && r[0] == r[|r| - 1] == (if v.Str? then '"' else '\'')
      && (!v.Str? && ValidRune(v.n) && IsPrint(v.n, wide) && v.n != '\'' as int && v.n != '\\' as int
          ==> r == "'" + EncodeRune(v.n) + "'")
  {
  }

  /** Text made of printable runes, none of them the double quote or the
      backslash, is written between the quotes unchanged. */
  lemma {:induction false} QuoteBodyPrintable(rs: seq<int>, wide: int -> bool)
    requires forall i :: 0 <= i < |rs| ==> ValidRune(rs[i]) && IsPrint(rs[i], wide) && rs[i] != '"' as int && rs[i] != '\\' as int
    ensures QuoteBody(EncodeRunes(rs), '"', wide) == EncodeRunes(rs)
  {
    if rs != [] {
      var head, rest := EncodeRune(rs[0]), EncodeRunes(rs[1..]);
      var s := head + rest;
      DecodeEncodeRune(rs[0], rest);
      assert s[|head|..] == rest;
      QuoteBodyPrintable(rs[1..], wide);
    }
  }

  /** No encoded rune other than the double quote holds a double quote byte:
      every byte of a multi-byte encoding is at least 0x80. */
  lemma {:induction false} EncodeRunesNoQuote(rs: seq<int>)
    requires forall i :: 0 <= i < |rs| ==> ValidRune(rs[i]) && rs[i] != '"' as int
    ensures '"' !in EncodeRunes(rs)
  {
    if rs != [] {
      EncodeRunesNoQuote(rs[1..]);
      assert EncodeRunes(rs) == EncodeRune(rs[0]) + EncodeRunes(rs[1..]);
    }
  }

  /** What the test view shows for a decimal or hex value is accepted back
      by the condition comparison. */
  lemma FormattedNumberCompares(v: Value, kind: string, wide: int -> bool)
    requires kind == "decimal" ==> v.I64? && InInt64(v.n)
    requires kind == "hex" ==> v.Str?
    requires kind == "hex" || kind == "decimal"
    ensures CompareFieldValue(v, FormatFieldValue(v, kind, wide), kind)
  {
    if kind == "decimal" {
      ParseItoa(v.n);
    }
  }

  /** The same for a string of printable runes without double quotes or
      backslashes, in any script: `%q` adds quotes that the comparison strips
      again. */
  lemma FormattedStringCompares(rs: seq<int>, wide: int -> bool)
    requires forall i :: 0 <= i < |rs| ==> ValidRune(rs[i]) && IsPrint(rs[i], wide) && rs[i] != '"' as int && rs[i] != '\\' as int
    ensures CompareFieldValue(Str(EncodeRunes(rs)), FormatFieldValue(Str(EncodeRunes(rs)), "string", wide), "string")
  {
    var text := EncodeRunes(rs);
    QuoteBodyPrintable(rs, wide);
    EncodeRunesNoQuote(rs);
    assert FormatFieldValue(Str(text), "string", wide) == "\"" + text + "\"";
    TrimQuotes(text);
  }

  /** `%q` keeps printable non-ASCII text: "é" (C3 A9) is written as it is. */
  lemma QuoteKeepsAccent(wide: int -> bool)
    ensures Quote("\U{00C3}\U{00A9}", wide) == "\"\U{00C3}\U{00A9}\""
  {
    var s := "\U{00C3}\U{00A9}";
    assert DecodeRune(s) == (0xE9, 2);
    assert EncodeRune(0xE9) == s;
    assert s[2..] == "";
  }

  /** A byte that starts no valid encoding is written \xNN: a lone 0xFF is \xff. */
  lemma QuoteEscapesStrayByte(wide: int -> bool)
    ensures Quote("\U{00FF}", wide) == "\"\\xff\""
  {
    StrayByteBody(wide);
  }

  lemma StrayByteBody(wide: int -> bool)
    ensures QuoteBody("\U{00FF}", '"', wide) == "\\xff"
  {
    var s := "\U{00FF}";
    assert DecodeRune(s) == (RuneError, 1);
    assert ByteOf(s[0]) == 255;
    LowHexFF();
    assert s[1..] == "";
  }

  lemma LowHexFF()
    ensures LowHex(255, 2) == "ff"
  {
    assert LowHex(15, 1) == "f";
  }

  /** Rune 200 is printable and written as 'È' (C3 88). */
  lemma QuoteRunePrintable(wide: int -> bool)
    ensures QuoteRune(200, wide) == "'\U{00C3}\U{0088}'"
  {
    assert 200 % 64 == 8 && 200 / 64 == 3;
    assert EncodeRune(200) == "\U{00C3}\U{0088}";
    assert EscapeRune(200, '\'', wide) == EncodeRune(200);
  }

  /** Rune 128 is a control character and is written '\u0080'. */
  lemma QuoteRuneControl(wide: int -> bool)
    ensures QuoteRune(128, wide) == "'\\u0080'"
  {
    assert !IsPrint(128, wide);
    assert EscapeRune(128, '\'', wide) == "\\u" + LowHex(128, 4);
    LowHex128();
  }

  lemma LowHex128()
    ensures LowHex(128, 4) == "0080"
  {
    assert LowHex(0, 1) == "0";
    assert LowHex(0, 2) == "00";
    assert LowHex(8, 3) == "008";
  }

  /** -1 is not a rune and is written as U+FFFD (EF BF BD), which the
      Unicode tables count as printable. */
  lemma QuoteRuneInvalid(wide: int -> bool)
    requires wide(RuneError)
    ensures QuoteRune(-1, wide) == "'\U{00EF}\U{00BF}\U{00BD}'"
  {
    assert RuneError % 64 == 0x3D && RuneError / 64 % 64 == 0x3F && RuneError / 4096 == 0x0F;
    assert EncodeRune(RuneError) == "\U{00EF}\U{00BF}\U{00BD}";
  }

  /** `strings.Trim(s, "\"")` undoes the quotes `%q` puts around a text
      without quote characters. */
  lemma TrimQuotes(text: string)
    requires '"' !in text
    ensures TrimChar("\"" + text + "\"", '"') == text
  {
    var q := "\"" + text + "\"";
    var tail := text + "\"";
    assert q[1..] == tail;
    assert TrimLeftChar(q, '"') == TrimLeftChar(tail, '"');
    if text != [] {
      assert tail[0] == text[0];
      assert TrimLeftChar(tail, '"') == tail;
    } else {
      assert TrimLeftChar(tail, '"') == "";
    }
    assert tail[..|text|] == text;
    assert TrimRightChar(tail, '"') == TrimRightChar(text, '"');
    if text != [] {
      assert text[|text| - 1] in text;
    }
  }

  // ---------------------------------------------------------------------------
  // Hex dump
  // ---------------------------------------------------------------------------

  /** Hex digits of a number, most significant first, no leading zeros. */
  function NatToHex(n: nat): (s: string)
    ensures |s| >= 1
  {
    if n < 16 then [HexDigit(n)] else NatToHex(n / 16) + [HexDigit(n % 16)]
  }

  lemma NatToHexShort(n: nat)
    requires n < 0x10000
    ensures |NatToHex(n)| <= 4
  {
    if n >= 16 {
      NatToHexShort(n / 16);
      if n / 16 < 0x1000 {
        NatToHexShort3(n / 16);
      }
    }
  }

  lemma NatToHexShort3(n: nat)
    requires n < 0x1000
    ensures |NatToHex(n)| <= 3
  {
    if n >= 16 {
      NatToHexShort2(n / 16);
    }
  }

  lemma NatToHexShort2(n: nat)
    requires n < 0x100
    ensures |NatToHex(n)| <= 2
  {
  }

  function Zeros(n: nat): (s: string)
    ensures |s| == n
  {
    if n == 0 then "" else "0" + Zeros(n - 1)
  }

  /** `%04x`: at least four lower-case hex digits. */
  function Hex4(n: nat): (s: string)
    ensures |s| >= 4
  {
    var h := NatToHex(n);
    if |h| < 4 then Zeros(4 - |h|) + h else h
  }

  /** One cell of the hex column: "%02x " for a byte, three spaces past the end. */
  function HexCell(data: seq<byte>, k: nat): (s: string)
    ensures |s| == 3
  {
    if k < |data| then [HexDigit(data[k] / 16), HexDigit(data[k] % 16), ' '] else "   "
  }

  /** The first j cells of the hex column of the line at offset i, with the
      extra space after the 8th cell. */
  function HexColumn(data: seq<byte>, i: nat, j: nat): (s: string)
    requires j <= 16
    ensures |s| == 3 * j + (if j >= 8 then 1 else 0)
  {
    if j == 0 then ""
    else HexColumn(data, i, j - 1) + HexCell(data, i + j - 1) + (if j - 1 == 7 then " " else "")
  }

  /** A byte as the ASCII column shows it. */
  function AsciiChar(b: byte): char {
    if 32 <= b <= 126 then b as char else '.'
  }

  /** One position of the ASCII column; a space past the end. */
  function AsciiCell(data: seq<byte>, k: nat): char {
    if k < |data| then AsciiChar(data[k]) else ' '
  }

  /** The first j characters of the ASCII column of the line at offset i. */
  function AsciiColumn(data: seq<byte>, i: nat, j: nat): (s: string)
    requires j <= 16
    ensures |s| == j
  {
    if j == 0 then "" else AsciiColumn(data, i, j - 1) + [AsciiCell(data, i + j - 1)]
  }

  /** The dump line for offset i. */
  function DumpLine(data: seq<byte>, i: nat): string {
    Hex4(i) + "  " + HexColumn(data, i, 16) + "  " + AsciiColumn(data, i, 16) + "\n"
  }

  /** The lines of the dump, one per started block of 16 bytes. */
  function DumpLines(data: seq<byte>): (lines: seq<string>)
    ensures |lines| == (|data| + 15) / 16
    ensures forall k :: 0 <= k < |lines| ==> lines[k] == DumpLine(data, 16 * k)
  {
    seq((|data| + 15) / 16, k requires 0 <= k => DumpLine(data, 16 * k))
  }

  /** The lines written one after the other. */
  function Concat(lines: seq<string>): string {
    if lines == [] then "" else Concat(lines[..|lines| - 1]) + lines[|lines| - 1]
  }

  /** How many newlines a text holds. */
  function Newlines(s: string): nat {
    multiset(s)['\n']
  }

  lemma {:induction false} NatToHexNoNewline(n: nat)
    ensures '\n' !in NatToHex(n)
  {
    if n >= 16 {
      NatToHexNoNewline(n / 16);
      assert HexValue(NatToHex(n)[|NatToHex(n)| - 1]) == n % 16;
    } else {
      assert HexValue(NatToHex(n)[0]) == n;
    }
  }

  lemma {:induction false} Hex4NoNewline(n: nat)
    ensures '\n' !in Hex4(n)
  {
    NatToHexNoNewline(n);
    var h := NatToHex(n);
    if |h| < 4 {
      ZerosAreZero(4 - |h|);
    }
  }

  lemma {:induction false} ZerosAreZero(n: nat)
    ensures '\n' !in Zeros(n)
  {
    if n > 0 {
      ZerosAreZero(n - 1);
    }
  }

  lemma HexCellNoNewline(data: seq<byte>, k: nat)
    ensures '\n' !in HexCell(data, k)
  {
    var cell := HexCell(data, k);
    if k < |data| {
      assert HexValue(cell[0]) == data[k] / 16;
      assert HexValue(cell[1]) == data[k] % 16;
    }
  }

  lemma {:induction false} HexColumnNoNewline(data: seq<byte>, i: nat, j: nat)
    requires j <= 16
    ensures '\n' !in HexColumn(data, i, j)
  {
    if j > 0 {
      HexColumnNoNewline(data, i, j - 1);
      HexCellNoNewline(data, i + j - 1);
      NotInJoined(HexColumn(data, i, j - 1), HexCell(data, i + j - 1), if j == 8 then " " else "", '\n');
    }
  }

  lemma NotInJoined(a: string, b: string, c: string, x: char)
    requires x !in a && x !in b && x !in c
    ensures x !in a + b + c
  {
  }

  lemma {:induction false} AsciiColumnNoNewline(data: seq<byte>, i: nat, j: nat)
    requires j <= 16
    ensures '\n' !in AsciiColumn(data, i, j)
  {
    if j > 0 {
      AsciiColumnNoNewline(data, i, j - 1);
    }
  }

  /** Each dump line is newline-terminated and holds no other newline. */
  lemma DumpLineNewlines(data: seq<byte>, i: nat)
    ensures Newlines(DumpLine(data, i)) == 1
  {
    var body := Hex4(i) + "  " + HexColumn(data, i, 16) + "  " + AsciiColumn(data, i, 16);
    assert '\n' !in body by {
      Hex4NoNewline(i);
      HexColumnNoNewline(data, i, 16);
      AsciiColumnNoNewline(data, i, 16);
    }
    assert multiset(body)['\n'] == 0;
    assert DumpLine(data, i) == body + "\n";
    assert multiset(body + "\n") == multiset(body) + multiset("\n");
  }

  /** The dump of n lines holds exactly n newlines. */
  lemma {:induction false} ConcatNewlines(lines: seq<string>)
    requires forall k :: 0 <= k < |lines| ==> Newlines(lines[k]) == 1
    ensures Newlines(Concat(lines)) == |lines|
  {
    if lines != [] {
      var init := lines[..|lines| - 1];
      ConcatNewlines(init);
      assert multiset(Concat(init) + lines[|lines| - 1]) == multiset(Concat(init)) + multiset(lines[|lines| - 1]);
    }
  }

  /** The dump holds exactly one newline per started block of 16 bytes. */
  lemma DumpNewlines(data: seq<byte>)
    ensures Newlines(Concat(DumpLines(data))) == (|data| + 15) / 16
  {
    var lines := DumpLines(data);
    forall k | 0 <= k < |lines|
      ensures Newlines(lines[k]) == 1
    {
      DumpLineNewlines(data, 16 * k);
    }
    ConcatNewlines(lines);
  }

  lemma {:induction false} AsciiColumnAt(data: seq<byte>, i: nat, j: nat, k: nat)
    requires k < j <= 16
    ensures AsciiColumn(data, i, j)[k] == AsciiCell(data, i + k)
  {
    if k < j - 1 {
      AsciiColumnAt(data, i, j - 1, k);
    }
  }

  /** A line for an offset below 0x10000 has the fixed layout: 4 offset
      digits, two spaces, 16 hex cells with an extra space after the 8th, two
      spaces, 16 ASCII characters (bytes outside 32..126 as '.'), a newline. */
  lemma DumpLineLayout(data: seq<byte>, i: nat, j: nat)
    requires i < 0x10000 && j < 16
    ensures |DumpLine(data, i)| == 74
    ensures DumpLine(data, i)[..4] == Hex4(i)
    ensures DumpLine(data, i)[57 + j] == AsciiCell(data, i + j)
  {
    NatToHexShort(i);
    LineColumns(Hex4(i), HexColumn(data, i, 16), AsciiColumn(data, i, 16), j);
    AsciiColumnAt(data, i, 16, j);
  }

  /** Where the parts of a line land, whatever their contents. */
  lemma LineColumns(head: string, hex: string, ascii: string, j: nat)
    requires |head| == 4 && |hex| == 49 && |ascii| == 16 && j < 16
    ensures var line := head + "  " + hex + "  " + ascii + "\n";
      |line| == 74 && line[..4] == head && line[57 + j] == ascii[j]
  {
    var line := head + "  " + hex + "  " + ascii + "\n";
    assert line == head + ("  " + hex + "  " + ascii + "\n");
    var prefix := head + "  " + hex + "  ";
    assert line == prefix + (ascii + "\n");
  }

  lemma AppendAssoc(a: string, b: string, c: string, d: string)
    ensures a + b + c + d == a + (b + c + d)
  {
  }

  lemma HexColumnSnoc(data: seq<byte>, i: nat, j: nat)
    requires j < 16
    ensures HexColumn(data, i, j + 1) == HexColumn(data, i, j) + HexCell(data, i + j) + (if j == 7 then " " else "")
  {
  }

  /** One step of the hex column loop: the `%02x ` cell, or three spaces
      past the end of the data, then the extra space after the eighth cell. */
  method AppendHexCell(sb0: string, data: seq<byte>, i: nat, j: nat) returns (sb: string)
    requires j < 16
    ensures sb == sb0 + HexCell(data, i + j) + (if j == 7 then " " else "")
  {
    var k := i + j;
    if k < |data| {
      sb := sb0 + [HexDigit(data[k] / 16), HexDigit(data[k] % 16), ' '];
    } else {
      sb := sb0 + "   ";
    }
    if j == 7 {
      sb := sb + " ";
    }
  }

  /** The inner loop writing the hex column of the line at offset i. */
  method AppendHexColumn(sb0: string, data: seq<byte>, i: nat) returns (sb: string)
    ensures sb == sb0 + HexColumn(data, i, 16)
  {
    sb := sb0;
    var j := 0;
    while j < 16
      invariant 0 <= j <= 16
      invariant sb == sb0 + HexColumn(data, i, j)
    {
      ghost var prev := sb;
      sb := AppendHexCell(sb, data, i, j);
      HexColumnAppend(sb0, data, i, j, prev, sb);
      j := j + 1;
    }
  }

  /** Appending the next cell and, after the eighth, the extra space, extends
      the hex column by one cell. */
  lemma HexColumnAppend(sb0: string, data: seq<byte>, i: nat, j: nat, prev: string, sb: string)
    requires j < 16 && prev == sb0 + HexColumn(data, i, j)
    requires sb == prev + HexCell(data, i + j) + (if j == 7 then " " else "")
    ensures sb == sb0 + HexColumn(data, i, j + 1)
  {
    HexColumnSnoc(data, i, j);
    AppendAssoc(sb0, HexColumn(data, i, j), HexCell(data, i + j), if j == 7 then " " else "");
  }

  /** The inner loop writing the ASCII column of the line at offset i. */
  method AppendAsciiColumn(sb0: string, data: seq<byte>, i: nat) returns (sb: string)
    ensures sb == sb0 + AsciiColumn(data, i, 16)
  {
    sb := sb0;
    var j := 0;
    while j < 16
      invariant 0 <= j <= 16
      invariant sb == sb0 + AsciiColumn(data, i, j)
    {
      if i + j < |data| {
        sb := sb + [AsciiChar(data[i + j])];
      } else {
        sb := sb + [' '];
      }
      j := j + 1;
    }
  }

  /** One pass of the outer loop: the offset, the two columns, the newline. */
  method AppendLine(sb0: string, data: seq<byte>, i: nat) returns (sb: string)
    ensures sb == sb0 + DumpLine(data, i)
  {
    sb := AppendHexColumn(sb0 + Hex4(i) + "  ", data, i);
    sb := AppendAsciiColumn(sb + "  ", data, i);
    sb := sb + "\n";
    LineConcat(sb0, Hex4(i), HexColumn(data, i, 16), AsciiColumn(data, i, 16));
  }

  lemma LineConcat(sb0: string, head: string, hex: string, ascii: string)
    ensures sb0 + head + "  " + hex + "  " + ascii + "\n" == sb0 + (head + "  " + hex + "  " + ascii + "\n")
  {
  }

  /** `HexDump`: one line per started block of 16 bytes, written piece by
      piece into a string builder. */
  method HexDump(data: seq<byte>) returns (sb: string)
    ensures sb == Concat(DumpLines(data))
  {
    ghost var lines := DumpLines(data);
    sb := "";
    var i := 0;
    ghost var n := 0;
    while i < |data|
      invariant i == 16 * n && n <= |lines|
      invariant sb == Concat(lines[..n])
      decreases |data| - i
    {
      assert lines[..n + 1][..n] == lines[..n];
      sb := AppendLine(sb, data, i);
      i := i + 16;
      n := n + 1;
    }
    assert lines[..n] == lines;
  }
}
