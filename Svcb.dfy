/**
 * The SVCB and HTTPS record data (section 2.2 of RFC 9460): the registry of
 * SvcParamKey codes, the binary reader and emitter, and the presentation
 * produced by `Display`.
 *
 * On the wire a record is its priority (two octets), its target name
 * (uncompressed), then key/length/value triples until the record ends; there
 * is no count of parameters, so the reader is driven only by how many bytes
 * of the record remain.
 */
module Svcb {
  import opened Wrappers
  import opened Bytes
  import opened Binary
  import DnsName
  import opened Txt

  // ---------------------------------------------------------------------
  // Key registry
  // ---------------------------------------------------------------------

  datatype SVCBKey =
    | Mandatory | Alpn | NoDefaultAlpn | Port | IPv4Hint | ECHConfig | IPv6Hint | ODoHConfig | Reserved

  /** `key as u16`: the discriminant each key is declared with. */
  function Code(k: SVCBKey): u16 {
    match k
    case Mandatory => 0
    case Alpn => 1
    case NoDefaultAlpn => 2
    case Port => 3
    case IPv4Hint => 4
    case ECHConfig => 5
    case IPv6Hint => 6
    case ODoHConfig => 32769
    case Reserved => 65535
  }

  /** `SVCB_MAP`: the codes the reader recognises, and the key for each. */
  const SvcbMap: map<u16, SVCBKey> :=
    map[0 := Mandatory, 1 := Alpn, 2 := NoDefaultAlpn, 3 := Port, 4 := IPv4Hint,
        5 := ECHConfig, 6 := IPv6Hint, 32769 := ODoHConfig, 65535 := Reserved]

  lemma RegistryCodes()
    ensures SvcbMap.Keys == {0, 1, 2, 3, 4, 5, 6, 32769, 65535}
  {
  }

  /** The cast the emitter uses and the lookup the reader uses undo each other. */
  lemma RegistryInverse(k: SVCBKey, c: u16)
    ensures Code(k) in SvcbMap && SvcbMap[Code(k)] == k
    ensures c in SvcbMap ==> Code(SvcbMap[c]) == c
  {
  }

  /** The characters key names are made of: lower-case letters, digits and `-`. */
  predicate IsNameChar(c: char) {
    'a' <= c <= 'z' || '0' <= c <= '9' || c == '-'
  }

  predicate IsNameByte(b: byte) {
    0x61 <= b <= 0x7A || 0x30 <= b <= 0x39 || b == 0x2D
  }

  /** The registered name of a key, as written in `Display`; empty for `Reserved`. */
  function KeyText(k: SVCBKey): (t: string)
    ensures forall i :: 0 <= i < |t| ==> IsNameChar(t[i])
    ensures t == "" <==> k == Reserved
  {
    match k
    case Mandatory => "mandatory"
    case Alpn => "alpn"
    case NoDefaultAlpn => "no-default-alpn"
    case Port => "port"
    case IPv4Hint => "ipv4hint"
    case ECHConfig => "echconfig"
    case IPv6Hint => "ipv6hint"
    case ODoHConfig => "odohconfig"
    case Reserved => ""
  }

  /** The `Display` of a key, as the octets it writes. */
  function KeyName(k: SVCBKey): (name: Str)
    ensures IsAscii(name)
    ensures forall i :: 0 <= i < |name| ==> IsNameByte(name[i])
    ensures name == [] <==> k == Reserved
  {
    Ascii(KeyText(k))
  }

  /** Length, first and fourth character of a key's name: enough to tell the keys apart. */
  function KeySignature(k: SVCBKey): (int, char, char) {
    match k
    case Mandatory => (9, 'm', 'd')
    case Alpn => (4, 'a', 'n')
    case NoDefaultAlpn => (15, 'n', 'd')
    case Port => (4, 'p', 't')
    case IPv4Hint => (8, 'i', '4')
    case ECHConfig => (9, 'e', 'c')
    case IPv6Hint => (8, 'i', '6')
    case ODoHConfig => (10, 'o', 'h')
    case Reserved => (0, ' ', ' ')
  }

  lemma TextSignature(k: SVCBKey)
    ensures var t := KeyText(k);
            |t| == KeySignature(k).0 && (|t| >= 4 ==> t[0] == KeySignature(k).1 && t[3] == KeySignature(k).2)
  {
  }

  /** Every key has a display name of its own. */
  lemma KeyNamesDistinct(a: SVCBKey, b: SVCBKey)
    requires a != b
    ensures KeyName(a) != KeyName(b)
  {
    if KeyName(a) == KeyName(b) {
      NameDeterminesKey(a, b);
    }
  }

  lemma NameDeterminesKey(a: SVCBKey, b: SVCBKey)
    requires KeyName(a) == KeyName(b)
    ensures a == b
  {
    AsciiInjective(KeyText(a), KeyText(b));
    TextDeterminesKey(a, b);
  }

  lemma TextDeterminesKey(a: SVCBKey, b: SVCBKey)
    requires KeyText(a) == KeyText(b)
    ensures a == b
  {
    TextSignature(a);
    TextSignature(b);
  }

  // ---------------------------------------------------------------------
  // Record data
  // ---------------------------------------------------------------------

  /** One service parameter; `value` is the UTF-8 content of the source's `String`. */
  datatype KeyValue = KeyValue(key: SVCBKey, value: Str)

  datatype SVCB = SVCB(priority: u16, target: DnsName.Name, values: seq<KeyValue>) {

    /** `SVCB::new`: stores its arguments as given. */
    static function New(priority: u16, target: DnsName.Name, values: seq<KeyValue>): (s: SVCB)
      ensures s.Priority() == priority && s.Target() == target && s.values == values
    {
      SVCB(priority, target, values)
    }

    function Priority(): u16 {
      priority
    }

    function Target(): DnsName.Name {
      target
    }
  }

  /** HTTPS record data has exactly the SVCB shape. */
  type HTTPS = SVCB

  // ---------------------------------------------------------------------
  // Wire form
  // ---------------------------------------------------------------------

  /** One parameter as `emit` writes it; the length is `len() as u16`, so it wraps. */
  function ParamWire(kv: KeyValue): seq<byte> {
    U16Bytes(Code(kv.key)) + U16Bytes(AsU16(|kv.value|)) + kv.value
  }

  function ParamsWire(vs: seq<KeyValue>): seq<byte> {
    if vs == [] then [] else ParamWire(vs[0]) + ParamsWire(vs[1..])
  }

  /** The target as `emit` writes it: lower-cased when canonical names are asked for. */
  function TargetWire(target: DnsName.Name, canonical: bool): seq<byte> {
    DnsName.Wire(if canonical then DnsName.Lowercase(target) else target)
  }

  /** What `emit` appends for `s`. */
  function Wire(s: SVCB, canonical: bool): seq<byte> {
    U16Bytes(s.priority) + TargetWire(s.target, canonical) + ParamsWire(s.values)
  }

  /** Σ (4 + length of value) over the parameters. */
  function ParamsSize(vs: seq<KeyValue>): nat {
    if vs == [] then 0 else 4 + |vs[0].value| + ParamsSize(vs[1..])
  }

  lemma {:induction false} ParamsWireAppend(a: seq<KeyValue>, b: seq<KeyValue>)
    ensures ParamsWire(a + b) == ParamsWire(a) + ParamsWire(b)
    decreases |a|
  {
    if a == [] {
      assert a + b == b;
    } else {
      assert (a + b)[1..] == a[1..] + b;
      ParamsWireAppend(a[1..], b);
    }
  }

  lemma {:induction false} ParamsWireLength(vs: seq<KeyValue>)
    ensures |ParamsWire(vs)| == ParamsSize(vs)
    decreases |vs|
  {
    if vs != [] {
      ParamsWireLength(vs[1..]);
    }
  }

  /** The emitted record is 2 + |name| + Σ (4 + len) bytes, whatever the canonical flag. */
  lemma WireLength(s: SVCB, canonical: bool)
    ensures |Wire(s, canonical)| == 2 + |DnsName.Wire(s.target)| + ParamsSize(s.values)
  {
    ParamsWireLength(s.values);
    DnsName.LowercaseWireLength(s.target);
  }

  /** The canonical flag changes nothing but the target's letters. */
  lemma CanonicalOnlyLowersTarget(s: SVCB)
    ensures Wire(s, true) == Wire(s.(target := DnsName.Lowercase(s.target)), false)
    ensures Wire(s, true)[..2] == Wire(s, false)[..2] == U16Bytes(s.priority)
    ensures Wire(s, true)[|Wire(s, true)| - |ParamsWire(s.values)|..]
         == Wire(s, false)[|Wire(s, false)| - |ParamsWire(s.values)|..]
         == ParamsWire(s.values)
  {
  }

  // ---------------------------------------------------------------------
  // Reading
  // ---------------------------------------------------------------------

  /**
   * One loop iteration of `read` on the unread bytes `rest`: the parameter
   * and what is left after it. What it consumes is exactly that parameter's
   * wire form, 4 + L bytes for the length L it read.
   */
  function ReadParamFrom(rest: seq<byte>): (r: Result<(KeyValue, seq<byte>), DecodeError>)
    ensures r.Ok? ==> rest == ParamWire(r.value.0) + r.value.1
  {
    var code :- ReadU16From(rest);
    if code.0 !in SvcbMap then Err(Panicked(UnregisteredKey(code.0)))
    else
      var len :- ReadU16From(code.1);
      var bytes :- ReadVecFrom(len.1, len.0);
      if !ValidUtf8(bytes.0) then Err(Panicked(InvalidUtf8))
      else
        var kv := KeyValue(SvcbMap[code.0], bytes.0);
        RegistryInverse(kv.key, code.0);
        Ok((kv, bytes.1))
  }

  /** When a whole header is there, one iteration fails exactly for these three reasons. */
  lemma ReadParamFailures(rest: seq<byte>)
    requires |rest| >= 4
    ensures var code := BigEndian(rest[0], rest[1]);
            var len := BigEndian(rest[2], rest[3]);
            ReadParamFrom(rest) ==
              if code !in SvcbMap then Err(Panicked(UnregisteredKey(code)))
              else if |rest| - 4 < len then Err(InsufficientBytes)
              else if !ValidUtf8(rest[4..4 + len]) then Err(Panicked(InvalidUtf8))
              else Ok((KeyValue(SvcbMap[code], rest[4..4 + len]), rest[4 + len..]))
  {
    assert rest[2..][2..] == rest[4..];
    var len := BigEndian(rest[2], rest[3]);
    if |rest| - 4 >= len {
      assert rest[4..][..len] == rest[4..4 + len];
      assert rest[4..][len..] == rest[4 + len..];
    }
  }

  /**
   * The parameter loop on `rest`, run while at least `least` bytes remain:
   * `read` runs it with `least` = 5 (`decoder.len() > 4`). It returns the
   * parameters in read order and the bytes it left: what it consumed is
   * exactly their wire form, and fewer than `least` bytes are left.
   */
  function ParamsFrom(rest: seq<byte>, least: nat): (r: Result<(seq<KeyValue>, seq<byte>), DecodeError>)
    ensures r.Ok? ==> rest == ParamsWire(r.value.0) + r.value.1 && |r.value.1| < least
    decreases |rest|
  {
    if |rest| < least then Ok(([], rest))
    else
      var step :- ReadParamFrom(rest);
      var more :- ParamsFrom(step.1, least);
      ParamsWireCons(step.0, more.0, more.1);
      Ok(([step.0] + more.0, more.1))
  }

  /** The wire form of a parameter list in front of a tail, peeled by one parameter. */
  lemma ParamsWireCons(kv: KeyValue, more: seq<KeyValue>, t: seq<byte>)
    ensures ParamsWire([kv] + more) + t == ParamWire(kv) + (ParamsWire(more) + t)
  {
    assert ([kv] + more)[0] == kv && ([kv] + more)[1..] == more;
  }

  /** The guard of the loop in `read`: more than 4 bytes remain. */
  const ReadGuard: nat := 5

  /**
   * `read` on the record bytes `rest` with the loop guard `least`: the record
   * and the bytes left unread, which are fewer than `least`; what was read is
   * exactly the record's wire form with canonical names off.
   */
  function ReadFrom(rest: seq<byte>, least: nat): (r: Result<(SVCB, seq<byte>), DecodeError>)
    ensures r.Ok? ==> rest == Wire(r.value.0, false) + r.value.1 && |r.value.1| < least
  {
    var priority :- ReadU16From(rest);
    var target :- DnsName.Decode(priority.1);
    var params :- ParamsFrom(target.1, least);
    DnsName.DecodeConsumesWire(priority.1);
    Ok((SVCB(priority.0, target.0, params.0), params.1))
  }

  /** Four bytes or fewer after the target: no parameter is read and none is consumed. */
  lemma ShortTailIsIgnored(rest: seq<byte>)
    requires |rest| <= 4
    ensures ParamsFrom(rest, ReadGuard) == Ok(([], rest))
  {
  }

  /** `read`: priority, target, then the parameter loop; an `unwrap()` that would panic is a failure. */
  method Read(d: BinDecoder) returns (r: Result<SVCB, DecodeError>)
    requires d.Valid()
    modifies d
    ensures d.Valid()
    ensures match ReadFrom(old(d.Unread()), ReadGuard)
            case Ok((s, rest)) => r == Ok(s) && d.Unread() == rest
            case Err(e) => r == Err(e)
  {
    var priority :- d.ReadU16();
    var target :- DnsName.Read(d);
    var values :- ReadParams(d, ReadGuard);
    return Ok(SVCB.New(priority, target, values));
  }

  /**
   * The loop of `read`: while at least `least` bytes remain, read one
   * parameter and push it. With `least` = `ReadGuard` this is
   * `while decoder.len() > 4`.
   */
  method ReadParams(d: BinDecoder, least: nat) returns (r: Result<seq<KeyValue>, DecodeError>)
    requires d.Valid()
    modifies d
    ensures d.Valid()
    ensures match ParamsFrom(old(d.Unread()), least)
            case Ok((vs, rest)) => r == Ok(vs) && d.Unread() == rest
            case Err(e) => r == Err(e)
  {
    ghost var start := d.Unread();
    var values := [];
    PrependNothing(ParamsFrom(start, least));
    while d.Remaining() >= least
      invariant d.Valid()
      invariant ParamsFrom(start, least) == Prepend(values, ParamsFrom(d.Unread(), least))
      decreases d.Remaining()
    {
      ParamsStep(d.Unread(), least);
      var kv :- ReadParam(d);
      PrependTwice(values, [kv], ParamsFrom(d.Unread(), least));
      values := values + [kv];
    }
    assert ParamsFrom(d.Unread(), least) == Ok(([], d.Unread()));
    assert values + [] == values;
    return Ok(values);
  }

  /** The loop body of `read`: key code, registry lookup, length, value bytes, UTF-8 check. */
  method ReadParam(d: BinDecoder) returns (r: Result<KeyValue, DecodeError>)
    requires d.Valid()
    modifies d
    ensures d.Valid()
    ensures match ReadParamFrom(old(d.Unread()))
            case Ok((kv, rest)) => r == Ok(kv) && d.Unread() == rest
            case Err(e) => r == Err(e)
  {
    var code :- d.ReadU16();
    if code !in SvcbMap {
      return Err(Panicked(UnregisteredKey(code)));
    }
    var key := SvcbMap[code];
    var len :- d.ReadU16();
    var bytes :- d.ReadVec(len);
    if !ValidUtf8(bytes) {
      return Err(Panicked(InvalidUtf8));
    }
    return Ok(KeyValue(key, bytes));
  }

  /** The parameters read so far, put in front of what the rest of the loop yields. */
  function Prepend(vs: seq<KeyValue>, rest: Result<(seq<KeyValue>, seq<byte>), DecodeError>): Result<(seq<KeyValue>, seq<byte>), DecodeError> {
    match rest
    case Err(e) => Err(e)
    case Ok((more, left)) => Ok((vs + more, left))
  }

  lemma PrependNothing(rest: Result<(seq<KeyValue>, seq<byte>), DecodeError>)
    ensures Prepend([], rest) == rest
  {
    if rest.Ok? {
      assert [] + rest.value.0 == rest.value.0;
    }
  }

  lemma PrependTwice(a: seq<KeyValue>, b: seq<KeyValue>, rest: Result<(seq<KeyValue>, seq<byte>), DecodeError>)
    ensures Prepend(a, Prepend(b, rest)) == Prepend(a + b, rest)
  {
    if rest.Ok? {
      assert a + (b + rest.value.0) == (a + b) + rest.value.0;
    }
  }

  /** One unfolding of the loop when the guard holds. */
  lemma ParamsStep(rest: seq<byte>, least: nat)
    requires |rest| >= least
    ensures var step := ReadParamFrom(rest);
            ParamsFrom(rest, least) ==
              if step.Err? then Err(step.error) else Prepend([step.value.0], ParamsFrom(step.value.1, least))
  {
  }

  // ---------------------------------------------------------------------
  // Round trips
  // ---------------------------------------------------------------------

  /** Parameters `emit` writes faithfully: lengths that fit the u16 field, UTF-8 values. */
  predicate Emittable(vs: seq<KeyValue>) {
    forall i :: 0 <= i < |vs| ==> |vs[i].value| < 0x1_0000 && ValidUtf8(vs[i].value)
  }

  /** The list is empty or its last value is not. */
  predicate LastValueNonEmpty(vs: seq<KeyValue>) {
    vs == [] || vs[|vs| - 1].value != []
  }

  /** One parameter reads back from its own wire form, whatever follows it. */
  lemma ReadParamOfWire(kv: KeyValue, t: seq<byte>)
    requires |kv.value| < 0x1_0000 && ValidUtf8(kv.value)
    ensures ReadParamFrom(ParamWire(kv) + t) == Ok((kv, t))
  {
    var b := ParamWire(kv) + t;
    var code, len := U16Bytes(Code(kv.key)), U16Bytes(AsU16(|kv.value|));
    assert b == code + (len + (kv.value + t));
    BigEndianOfU16Bytes(Code(kv.key));
    BigEndianOfU16Bytes(AsU16(|kv.value|));
    RegistryInverse(kv.key, 0);
    assert b[4..4 + |kv.value|] == kv.value;
    assert b[4 + |kv.value|..] == t;
    ReadParamFailures(b);
  }

  lemma {:induction false} ParamsRoundTrip(vs: seq<KeyValue>, least: nat)
    requires Emittable(vs)
    requires 1 <= least <= 4 || (least == ReadGuard && LastValueNonEmpty(vs))
    ensures ParamsFrom(ParamsWire(vs), least) == Ok((vs, []))
    decreases |vs|
  {
    if vs != [] {
      var kv, tail := vs[0], vs[1..];
      assert Emittable(tail) by {
        assert forall i :: 0 <= i < |tail| ==> tail[i] == vs[i + 1];
      }
      assert |ParamsWire(vs)| >= least && (least == ReadGuard ==> LastValueNonEmpty(tail)) by {
        if tail != [] {
          assert |ParamsWire(tail)| >= 4;
          assert tail[|tail| - 1] == vs[|vs| - 1];
        }
      }
      ReadParamOfWire(kv, ParamsWire(tail));
      ParamsStep(ParamsWire(vs), least);
      ParamsRoundTrip(tail, least);
      assert [kv] + tail == vs;
    }
  }

  lemma ReadOfWire(s: SVCB, least: nat)
    requires Emittable(s.values)
    requires 1 <= least <= 4 || (least == ReadGuard && LastValueNonEmpty(s.values))
    ensures ReadFrom(Wire(s, false), least) == Ok((s, []))
  {
    var name, params := DnsName.Wire(s.target), ParamsWire(s.values);
    var b := Wire(s, false);
    assert b == U16Bytes(s.priority) + (name + params);
    BigEndianOfU16Bytes(s.priority);
    DnsName.DecodeWire(s.target, params);
    ParamsRoundTrip(s.values, least);
  }

  /**
   * `read(emit(s)) == s` with canonical names off, when every value is
   * emittable and the last one is not empty.
   */
  lemma RoundTrip(s: SVCB)
    requires Emittable(s.values) && LastValueNonEmpty(s.values)
    ensures ReadFrom(Wire(s, false), ReadGuard) == Ok((s, []))
  {
    ReadOfWire(s, ReadGuard);
  }

  /**
   * An empty final value, such as that of `no-default-alpn`, leaves exactly
   * four bytes, so the guard `len() > 4` stops the loop and the parameter is
   * silently dropped: those four bytes are left unread.
   */
  lemma EmptyFinalValueDropped()
    ensures var s := SVCB(1, DnsName.Root(), [KeyValue(NoDefaultAlpn, [])]);
            Wire(s, false) == [0, 1, 0, 0, 2, 0, 0] &&
            ReadFrom(Wire(s, false), ReadGuard) == Ok((SVCB(1, DnsName.Root(), []), [0, 2, 0, 0]))
  {
    var s := SVCB(1, DnsName.Root(), [KeyValue(NoDefaultAlpn, [])]);
    var b := Wire(s, false);
    assert ParamsWire(s.values) == [0, 2, 0, 0];
    assert b == [0, 1, 0, 0, 2, 0, 0];
    assert b[2..] == [0, 0, 2, 0, 0];
    assert DnsName.Decode(b[2..]) == Ok((DnsName.Root(), [0, 2, 0, 0]));
  }

  /**
   * The record of the round-trip unit test: priority 1, target
   * `_dns._tcp.example.com`, one `alpn` parameter `rip`. Its value is not
   * empty, so it reads back whole.
   */
  lemma UnitTestRecordRoundTrips()
    ensures var target := DnsName.Name([Ascii("_dns"), Ascii("_tcp"), Ascii("example"), Ascii("com")]);
            var s := SVCB.New(1, target, [KeyValue(Alpn, Ascii("rip"))]);
            ReadFrom(Wire(s, false), ReadGuard) == Ok((s, []))
  {
    var value := Ascii("rip");
    AsciiIsUtf8(value);
    var target := DnsName.Name([Ascii("_dns"), Ascii("_tcp"), Ascii("example"), Ascii("com")]);
    RoundTrip(SVCB.New(1, target, [KeyValue(Alpn, value)]));
  }

  /**
   * The length field is `len() as u16`: a value of 65536 bytes is announced
   * as empty, so the reader takes its bytes for the next parameters.
   */
  lemma LongValueLengthWraps(kv: KeyValue)
    requires |kv.value| == 0x1_0000
    ensures ParamWire(kv)[2..4] == [0, 0]
    ensures ReadParamFrom(ParamWire(kv)) == Ok((KeyValue(kv.key, []), kv.value))
  {
    var b := ParamWire(kv);
    assert b == U16Bytes(Code(kv.key)) + ([0, 0] + kv.value);
    BigEndianOfU16Bytes(Code(kv.key));
    RegistryInverse(kv.key, 0);
    AsciiIsUtf8([]);
    ReadParamFailures(b);
    assert b[4..4] == [] && b[4..] == kv.value;
  }

  /** The guard that keeps a final empty value: a whole four-byte header remains. */
  const CorrectedGuard: nat := 4

  /** `read` with the loop guard `decoder.len() >= 4`. */
  method ReadCorrected(d: BinDecoder) returns (r: Result<SVCB, DecodeError>)
    requires d.Valid()
    modifies d
    ensures d.Valid()
    ensures match ReadFrom(old(d.Unread()), CorrectedGuard)
            case Ok((s, rest)) => r == Ok(s) && d.Unread() == rest
            case Err(e) => r == Err(e)
  {
    var priority :- d.ReadU16();
    var target :- DnsName.Read(d);
    var values :- ReadParams(d, CorrectedGuard);
    return Ok(SVCB.New(priority, target, values));
  }

  /** With the corrected guard every emittable record reads back whole, empty values included. */
  lemma RoundTripCorrected(s: SVCB)
    requires Emittable(s.values)
    ensures ReadFrom(Wire(s, false), CorrectedGuard) == Ok((s, []))
  {
    ReadOfWire(s, CorrectedGuard);
  }

  // ---------------------------------------------------------------------
  // Emitting
  // ---------------------------------------------------------------------

  /**
   * `emit`: priority, target (lower-cased when the encoder asks for
   * canonical names), then for each parameter its code, its length as u16
   * and its bytes.
   */
  method Emit(e: BinEncoder, s: SVCB) returns (r: Result<(), EncodeError>)
    requires e.Valid()
    modifies e
    ensures e.Valid()
    ensures Emitted(old(e.buffer), e.buffer, Wire(s, e.canonicalNames), r.Ok?, e.maxSize)
  {
    var canonical := e.IsCanonicalNames();
    ghost var b0 := e.buffer;
    r := e.EmitU16(s.Priority());
    if r.Err? {
      EmittedStop(b0, e.buffer, U16Bytes(s.priority), TargetWire(s.target, canonical), e.maxSize);
      EmittedStop(b0, e.buffer, U16Bytes(s.priority) + TargetWire(s.target, canonical), ParamsWire(s.values), e.maxSize);
      return;
    }
    ghost var b1 := e.buffer;
    assert Emitted(b0, b1, U16Bytes(s.priority), true, e.maxSize);
    r := DnsName.EmitWithLowercase(s.Target(), e, canonical);
    EmittedThen(b0, b1, e.buffer, U16Bytes(s.priority), TargetWire(s.target, canonical), r.Ok?, e.maxSize);
    if r.Err? {
      EmittedStop(b0, e.buffer, U16Bytes(s.priority) + TargetWire(s.target, canonical), ParamsWire(s.values), e.maxSize);
      return;
    }
    ghost var b2 := e.buffer;
    r := EmitParams(e, s.values);
    EmittedThen(b0, b2, e.buffer, U16Bytes(s.priority) + TargetWire(s.target, canonical), ParamsWire(s.values), r.Ok?, e.maxSize);
  }

  /** The loop of `emit` over the parameters, in order. */
  method EmitParams(e: BinEncoder, vs: seq<KeyValue>) returns (r: Result<(), EncodeError>)
    requires e.Valid()
    modifies e
    ensures e.Valid()
    ensures Emitted(old(e.buffer), e.buffer, ParamsWire(vs), r.Ok?, e.maxSize)
  {
    ghost var b0 := e.buffer;
    EmittedNothing(b0, e.maxSize);
    r := Ok(());
    for i := 0 to |vs|
      invariant e.Valid() && r.Ok?
      invariant Emitted(b0, e.buffer, ParamsWire(vs[..i]), true, e.maxSize)
    {
      ghost var b1 := e.buffer;
      r := EmitParam(e, vs[i]);
      EmittedThen(b0, b1, e.buffer, ParamsWire(vs[..i]), ParamWire(vs[i]), r.Ok?, e.maxSize);
      ParamsWireAppend(vs[..i], [vs[i]]);
      assert vs[..i] + [vs[i]] == vs[..i + 1];
      assert ParamsWire([vs[i]]) == ParamWire(vs[i]) + [];
      if r.Err? {
        ParamsWireAppend(vs[..i + 1], vs[i + 1..]);
        assert vs[..i + 1] + vs[i + 1..] == vs;
        EmittedStop(b0, e.buffer, ParamsWire(vs[..i + 1]), ParamsWire(vs[i + 1..]), e.maxSize);
        return;
      }
    }
    assert vs[..|vs|] == vs;
  }

  /** One iteration of the loop in `emit`: code, length as u16, value bytes. */
  method EmitParam(e: BinEncoder, kv: KeyValue) returns (r: Result<(), EncodeError>)
    requires e.Valid()
    modifies e
    ensures e.Valid()
    ensures Emitted(old(e.buffer), e.buffer, ParamWire(kv), r.Ok?, e.maxSize)
  {
    ghost var b0 := e.buffer;
    var code, len := U16Bytes(Code(kv.key)), U16Bytes(AsU16(|kv.value|));
    assert ParamWire(kv) == code + (len + kv.value);
    r := e.EmitU16(Code(kv.key));
    if r.Err? {
      EmittedStop(b0, e.buffer, code, len + kv.value, e.maxSize);
      return;
    }
    ghost var b1 := e.buffer;
    assert Emitted(b0, b1, code, true, e.maxSize);
    r := e.EmitU16(AsU16(|kv.value|));
    if r.Err? {
      EmittedStop(b1, e.buffer, len, kv.value, e.maxSize);
      EmittedThen(b0, b1, e.buffer, code, len + kv.value, false, e.maxSize);
      return;
    }
    ghost var b2 := e.buffer;
    assert Emitted(b1, b2, len, true, e.maxSize);
    r := e.EmitVec(kv.value);
    EmittedThen(b1, b2, e.buffer, len, kv.value, r.Ok?, e.maxSize);
    EmittedThen(b0, b1, e.buffer, code, len + kv.value, r.Ok?, e.maxSize);
  }

  // ---------------------------------------------------------------------
  // Presentation
  // ---------------------------------------------------------------------

  /** The `Display` of one parameter: `{key}={value}`. */
  function PairText(kv: KeyValue): Str {
    KeyName(kv.key) + [0x3D] + kv.value
  }

  /** The parameters' texts one after another, with no separator. */
  function PairsText(vs: seq<KeyValue>): Str {
    if vs == [] then [] else PairsText(vs[..|vs| - 1]) + PairText(vs[|vs| - 1])
  }

  /**
   * `Display`: `{priority} {target} {values}`, where `nameText` is the
   * `Display` of a name and `values` the parameters' texts run together.
   */
  function Text(s: SVCB, nameText: DnsName.Name -> Str): Str {
    DecimalText(s.priority) + [0x20] + nameText(s.target) + [0x20] + PairsText(s.values)
  }

  /** The loop of `Display` that builds `values` by `push_str`. */
  method FormatValues(vs: seq<KeyValue>) returns (values: Str)
    ensures values == PairsText(vs)
  {
    values := [];
    for i := 0 to |vs|
      invariant values == PairsText(vs[..i])
    {
      assert vs[..i + 1][..i] == vs[..i];
      values := values + PairText(vs[i]);
    }
    assert vs[..|vs|] == vs;
  }

  /** `Display` as the source writes it: the loop, then the three fields. */
  method Format(s: SVCB, nameText: DnsName.Name -> Str) returns (t: Str)
    ensures t == Text(s, nameText)
  {
    var values := FormatValues(s.values);
    t := DecimalText(s.priority) + [0x20] + nameText(s.target) + [0x20] + values;
  }

  /**
   * The priority is the text's first space-delimited field and parses back,
   * whatever the target and the parameters display as.
   */
  lemma TextStartsWithPriority(s: SVCB, nameText: DnsName.Name -> Str)
    ensures SplitAt(Text(s, nameText), 0x20).0 == DecimalText(s.priority)
    ensures ParseU16(SplitAt(Text(s, nameText), 0x20).0) == Ok(s.priority)
  {
    var d := DecimalText(s.priority);
    assert Text(s, nameText) == d + [0x20] + (nameText(s.target) + [0x20] + PairsText(s.values));
    SplitAtFirst(d, 0x20, nameText(s.target) + [0x20] + PairsText(s.values));
    ParseDisplayedU16(s.priority);
  }

  /**
   * The parameters are run together with no separator, so two different
   * records can display alike: `alpn=a` then `port=1` against one `alpn`
   * whose value is `aport=1`.
   */
  lemma DisplayConflatesParams(nameText: DnsName.Name -> Str)
    ensures var a := SVCB(1, DnsName.Root(), [KeyValue(Alpn, [0x61]), KeyValue(Port, [0x31])]);
            var b := SVCB(1, DnsName.Root(), [KeyValue(Alpn, [0x61] + KeyName(Port) + [0x3D, 0x31])]);
            a != b && Text(a, nameText) == Text(b, nameText)
  {
    var x, y := KeyValue(Alpn, [0x61]), KeyValue(Port, [0x31]);
    var z := KeyValue(Alpn, [0x61] + KeyName(Port) + [0x3D, 0x31]);
    assert [x, y][..1] == [x] && [x][..0] == [] && [z][..0] == [];
    assert PairsText([x]) == [] + PairText(x);
    assert PairsText([x, y]) == PairsText([x]) + PairText(y);
    assert PairsText([z]) == [] + PairText(z);
    assert PairText(x) + PairText(y) == PairText(z);
    assert [KeyValue(Alpn, [0x61]), KeyValue(Port, [0x31])] != [z];
  }

  /** `Display` builds a `String`: with UTF-8 values and target text, the whole text is UTF-8. */
  lemma {:induction false} PairsTextIsUtf8(vs: seq<KeyValue>)
    requires forall i :: 0 <= i < |vs| ==> ValidUtf8(vs[i].value)
    ensures ValidUtf8(PairsText(vs))
    decreases |vs|
  {
    if vs != [] {
      var init, kv := vs[..|vs| - 1], vs[|vs| - 1];
      assert forall i :: 0 <= i < |init| ==> init[i] == vs[i];
      PairsTextIsUtf8(init);
      var head := KeyName(kv.key) + [0x3D];
      assert IsAscii(head);
      AsciiIsUtf8(head);
      Utf8Concat(head, kv.value);
      Utf8Concat(PairsText(init), PairText(kv));
    } else {
      AsciiIsUtf8([]);
    }
  }

  lemma TextIsUtf8(s: SVCB, nameText: DnsName.Name -> Str)
    requires ValidUtf8(nameText(s.target))
    requires forall i :: 0 <= i < |s.values| ==> ValidUtf8(s.values[i].value)
    ensures ValidUtf8(Text(s, nameText))
  {
    var d := DecimalText(s.priority) + [0x20];
    assert IsAscii(d);
    AsciiIsUtf8(d);
    AsciiIsUtf8([0x20]);
    PairsTextIsUtf8(s.values);
    Utf8Concat(d, nameText(s.target));
    Utf8Concat(d + nameText(s.target), [0x20]);
    Utf8Concat(d + nameText(s.target) + [0x20], PairsText(s.values));
  }

  /** The text before the first `b` in `s`, and what follows that `b` if there is one. */
  function SplitAt(s: Str, b: byte): (r: (Str, Option<Str>))
    ensures r.1.None? ==> r.0 == s && b !in s
    ensures r.1.Some? ==> s == r.0 + [b] + r.1.value && b !in r.0
  {
    if s == [] then ([], None)
    else if s[0] == b then ([], Some(s[1..]))
    else
      var split := SplitAt(s[1..], b);
      assert s == [s[0]] + s[1..];
      ([s[0]] + split.0, split.1)
  }

  lemma {:induction false} SplitAtFirst(x: Str, b: byte, y: Str)
    requires b !in x
    ensures SplitAt(x + [b] + y, b) == (x, Some(y))
    decreases |x|
  {
    if x != [] {
      assert (x + [b] + y)[1..] == x[1..] + [b] + y;
      SplitAtFirst(x[1..], b, y);
      assert [x[0]] + x[1..] == x;
    }
  }

  /** The keys in declaration order. */
  const AllKeys: seq<SVCBKey> :=
    [Mandatory, Alpn, NoDefaultAlpn, Port, IPv4Hint, ECHConfig, IPv6Hint, ODoHConfig, Reserved]

  /** The first key in `ks` with display name `name`. */
  function FindKey(name: Str, ks: seq<SVCBKey>): (r: Option<SVCBKey>)
    ensures r.Some? ==> KeyName(r.value) == name
  {
    if ks == [] then None
    else if KeyName(ks[0]) == name then Some(ks[0])
    else FindKey(name, ks[1..])
  }

  /** Since display names are distinct, a key is found again from its name. */
  lemma {:induction false} FindKeyOfName(k: SVCBKey, ks: seq<SVCBKey>)
    requires k in ks
    ensures FindKey(KeyName(k), ks) == Some(k)
    decreases |ks|
  {
    if ks[0] != k {
      KeyNamesDistinct(ks[0], k);
      FindKeyOfName(k, ks[1..]);
    }
  }

  /** Reads one `{key}={value}` back: the key is the text before the first `=`. */
  function ParsePair(t: Str): Option<KeyValue> {
    var split := SplitAt(t, 0x3D);
    if split.1.None? then None
    else
      match FindKey(split.0, AllKeys)
      case None => None
      case Some(k) => Some(KeyValue(k, split.1.value))
  }

  /** The parameters' texts joined by the byte `sep`. */
  function JoinedPairsText(vs: seq<KeyValue>, sep: byte): Str {
    if vs == [] then []
    else if |vs| == 1 then PairText(vs[0])
    else PairText(vs[0]) + [sep] + JoinedPairsText(vs[1..], sep)
  }

  /** Splits at every `sep` and reads each piece as a pair. */
  function ParsePairs(t: Str, sep: byte): Option<seq<KeyValue>>
    decreases |t|
  {
    if t == [] then Some([])
    else
      var split := SplitAt(t, sep);
      match ParsePair(split.0)
      case None => None
      case Some(kv) =>
        if split.1.None? then Some([kv])
        else
          match ParsePairs(split.1.value, sep)
          case None => None
          case Some(more) => Some([kv] + more)
  }

  /** A byte that may separate pairs: not `=`, and never part of a key name. */
  predicate IsSeparator(sep: byte) {
    sep != 0x3D && !IsNameByte(sep)
  }

  lemma ParsePairOfText(kv: KeyValue)
    ensures ParsePair(PairText(kv)) == Some(kv)
  {
    SplitAtFirst(KeyName(kv.key), 0x3D, kv.value);
    FindKeyOfName(kv.key, AllKeys);
  }

  lemma SeparatorNotInPair(kv: KeyValue, sep: byte)
    requires IsSeparator(sep) && sep !in kv.value
    ensures sep !in PairText(kv) && PairText(kv) != []
  {
    assert sep !in KeyName(kv.key);
  }

  /** A last piece, with no separator in it. */
  lemma ParsePairsLast(x: Str, sep: byte, vs: seq<KeyValue>)
    requires |vs| == 1 && sep !in x && x != [] && ParsePair(x) == Some(vs[0])
    ensures ParsePairs(x, sep) == Some(vs)
  {
    assert [vs[0]] == vs;
  }

  /** A piece, the separator, and more text. */
  lemma ParsePairsCons(x: Str, sep: byte, y: Str, vs: seq<KeyValue>)
    requires vs != [] && sep !in x && ParsePair(x) == Some(vs[0]) && ParsePairs(y, sep) == Some(vs[1..])
    ensures ParsePairs(x + [sep] + y, sep) == Some(vs)
  {
    SplitAtFirst(x, sep, y);
    assert [vs[0]] + vs[1..] == vs;
  }

  /**
   * With a separator between pairs that no value contains, the parameters
   * read back from their text.
   */
  lemma {:induction false} JoinedPairsRoundTrip(vs: seq<KeyValue>, sep: byte)
    requires IsSeparator(sep)
    requires forall i :: 0 <= i < |vs| ==> sep !in vs[i].value
    ensures ParsePairs(JoinedPairsText(vs, sep), sep) == Some(vs)
    decreases |vs|
  {
    if vs != [] {
      SeparatorNotInPair(vs[0], sep);
      ParsePairOfText(vs[0]);
      if |vs| == 1 {
        ParsePairsLast(PairText(vs[0]), sep, vs);
      } else {
        var tail := vs[1..];
        assert forall i :: 0 <= i < |tail| ==> sep !in tail[i].value by {
          assert forall i :: 0 <= i < |tail| ==> tail[i] == vs[i + 1];
        }
        JoinedPairsRoundTrip(tail, sep);
        ParsePairsCons(PairText(vs[0]), sep, JoinedPairsText(tail, sep), vs);
      }
    }
  }

  /** `Display` with the parameters joined by `sep`. */
  function TextCorrected(s: SVCB, nameText: DnsName.Name -> Str, sep: byte): Str {
    DecimalText(s.priority) + [0x20] + nameText(s.target) + [0x20] + JoinedPairsText(s.values, sep)
  }
}
