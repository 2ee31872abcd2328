/**
 * SRV record data (RFC 2782): priority, weight and port, each a network-order
 * u16, then the target name. Its binary reader and emitter, and the parser
 * of its four presentation fields.
 */
module Srv {
  import opened Wrappers
  import opened Bytes
  import opened Binary
  import DnsName
  import opened Txt

  datatype SRV = SRV(priority: u16, weight: u16, port: u16, target: DnsName.Name) {

    /** `SRV::new`: stores its arguments as given. */
    static function New(priority: u16, weight: u16, port: u16, target: DnsName.Name): (r: SRV)
      ensures r.GetPriority() == priority && r.GetWeight() == weight
      ensures r.GetPort() == port && r.GetTarget() == target
    {
      SRV(priority, weight, port, target)
    }

    function GetPriority(): u16 {
      priority
    }

    function GetWeight(): u16 {
      weight
    }

    function GetPort(): u16 {
      port
    }

    function GetTarget(): DnsName.Name {
      target
    }
  }

  // ---------------------------------------------------------------------
  // Wire form
  // ---------------------------------------------------------------------

  /** The three fixed fields. */
  function FieldsWire(r: SRV): seq<byte> {
    U16Bytes(r.priority) + U16Bytes(r.weight) + U16Bytes(r.port)
  }

  /** What `emit` appends: the fields, then the target as `Name::emit` writes it. */
  function Wire(r: SRV, canonical: bool): seq<byte> {
    FieldsWire(r) + DnsName.Wire(if canonical then DnsName.Lowercase(r.target) else r.target)
  }

  /** `read` on the unread bytes `rest`: the record, and what follows its target. */
  function ReadFrom(rest: seq<byte>): (r: Result<(SRV, seq<byte>), DecodeError>)
    ensures r.Ok? ==> rest == Wire(r.value.0, false) + r.value.1
  {
    var priority :- ReadU16From(rest);
    var weight :- ReadU16From(priority.1);
    var port :- ReadU16From(weight.1);
    var target :- DnsName.Decode(port.1);
    DnsName.DecodeConsumesWire(port.1);
    Ok((SRV(priority.0, weight.0, port.0, target.0), target.1))
  }

  /** Fewer than six bytes cannot hold the fixed fields. */
  lemma ShortInputFails(rest: seq<byte>)
    requires |rest| < 6
    ensures ReadFrom(rest) == Err(InsufficientBytes)
  {
  }

  /** The first six bytes are priority, weight and port, in network order. */
  lemma FieldsAreFirst(rest: seq<byte>)
    requires ReadFrom(rest).Ok?
    ensures var r := ReadFrom(rest).value.0;
            r.priority == BigEndian(rest[0], rest[1]) &&
            r.weight == BigEndian(rest[2], rest[3]) &&
            r.port == BigEndian(rest[4], rest[5])
  {
    var r := ReadFrom(rest).value.0;
    assert rest[..6] == U16Bytes(r.priority) + U16Bytes(r.weight) + U16Bytes(r.port);
    BigEndianOfU16Bytes(r.priority);
    BigEndianOfU16Bytes(r.weight);
    BigEndianOfU16Bytes(r.port);
  }

  /** `read(emit(r)) == r` with canonical names off, whatever follows the record. */
  lemma RoundTrip(r: SRV, t: seq<byte>)
    ensures ReadFrom(Wire(r, false) + t) == Ok((r, t))
  {
    var b := Wire(r, false) + t;
    var name := DnsName.Wire(r.target);
    assert b == U16Bytes(r.priority) + (U16Bytes(r.weight) + (U16Bytes(r.port) + (name + t)));
    BigEndianOfU16Bytes(r.priority);
    BigEndianOfU16Bytes(r.weight);
    BigEndianOfU16Bytes(r.port);
    DnsName.DecodeWire(r.target, t);
  }

  /** `read`: three u16 reads, then `Name::read`; the first failure is returned. */
  method Read(d: BinDecoder) returns (r: Result<SRV, DecodeError>)
    requires d.Valid()
    modifies d
    ensures d.Valid()
    ensures match ReadFrom(old(d.Unread()))
            case Ok((v, rest)) => r == Ok(v) && d.Unread() == rest
            case Err(e) => r == Err(e)
  {
    var priority :- d.ReadU16();
    var weight :- d.ReadU16();
    var port :- d.ReadU16();
    var target :- DnsName.Read(d);
    return Ok(SRV.New(priority, weight, port, target));
  }

  /** `emit`: priority, weight, port, then `Name::emit` of the target. */
  method Emit(e: BinEncoder, r: SRV) returns (res: Result<(), EncodeError>)
    requires e.Valid()
    modifies e
    ensures e.Valid()
    ensures Emitted(old(e.buffer), e.buffer, Wire(r, e.canonicalNames), res.Ok?, e.maxSize)
  {
    ghost var b0 := e.buffer;
    ghost var name := DnsName.Wire(if e.canonicalNames then DnsName.Lowercase(r.target) else r.target);
    ghost var p, w, o := U16Bytes(r.priority), U16Bytes(r.weight), U16Bytes(r.port);
    assert Wire(r, e.canonicalNames) == p + (w + (o + name));
    res := e.EmitU16(r.GetPriority());
    if res.Err? {
      EmittedStop(b0, e.buffer, p, w + (o + name), e.maxSize);
      return;
    }
    ghost var b1 := e.buffer;
    assert Emitted(b0, b1, p, true, e.maxSize);
    res := e.EmitU16(r.GetWeight());
    if res.Err? {
      EmittedStop(b1, e.buffer, w, o + name, e.maxSize);
      EmittedThen(b0, b1, e.buffer, p, w + (o + name), false, e.maxSize);
      return;
    }
    ghost var b2 := e.buffer;
    assert Emitted(b1, b2, w, true, e.maxSize);
    res := e.EmitU16(r.GetPort());
    if res.Err? {
      EmittedStop(b2, e.buffer, o, name, e.maxSize);
      EmittedThen(b1, b2, e.buffer, w, o + name, false, e.maxSize);
      EmittedThen(b0, b1, e.buffer, p, w + (o + name), false, e.maxSize);
      return;
    }
    ghost var b3 := e.buffer;
    assert Emitted(b2, b3, o, true, e.maxSize);
    res := DnsName.Emit(r.GetTarget(), e);
    assert Emitted(b3, e.buffer, name, res.Ok?, e.maxSize);
    EmittedThen(b2, b3, e.buffer, o, name, res.Ok?, e.maxSize);
    EmittedThen(b1, b2, e.buffer, w, o + name, res.Ok?, e.maxSize);
    EmittedThen(b0, b1, e.buffer, p, w + (o + name), res.Ok?, e.maxSize);
  }

  // ---------------------------------------------------------------------
  // Presentation
  // ---------------------------------------------------------------------

  /** The `i`-th token as character data, or the error for a missing or foreign token. */
  function CharField(tokens: seq<Token>, i: nat, field: string): (r: Result<Str, ParseError>)
    ensures r.Ok? <==> i < |tokens| && tokens[i].CharData?
    ensures r.Ok? ==> r.value == tokens[i].data
    ensures i >= |tokens| ==> r == Err(MissingToken(field))
    ensures i < |tokens| && !tokens[i].CharData? ==> r == Err(UnexpectedToken(tokens[i]))
  {
    if i >= |tokens| then Err(MissingToken(field))
    else if tokens[i].CharData? then Ok(tokens[i].data)
    else Err(UnexpectedToken(tokens[i]))
  }

  /** A numeric field: character data that `u16::from_str` accepts. */
  function U16Field(tokens: seq<Token>, i: nat, field: string): (r: Result<u16, ParseError>)
    ensures r.Ok? <==> CharField(tokens, i, field).Ok? && ParseU16(tokens[i].data).Ok?
    ensures r.Ok? ==> r.value == ParseU16(tokens[i].data).value
  {
    var s :- CharField(tokens, i, field);
    match ParseU16(s)
    case Ok(v) => Ok(v)
    case Err(k) => Err(ParseInt(k))
  }

  /** The fields in the order `parse` takes them, as its missing-token errors name them. */
  const FieldNames: seq<string> := ["priority", "weight", "port", "target"]

  /**
   * `parse`: priority, weight and port as u16, then the target through
   * `parseName` (the name parser, given the origin). Every field of the
   * result comes from its own token.
   */
  function Parse(tokens: seq<Token>, origin: Option<DnsName.Name>,
                 parseName: (Str, Option<DnsName.Name>) -> Result<DnsName.Name, ParseError>): (r: Result<SRV, ParseError>)
    ensures r.Ok? <==> |tokens| >= 4 && (forall i :: 0 <= i < 4 ==> tokens[i].CharData?) &&
                       (forall i :: 0 <= i < 3 ==> ParseU16(tokens[i].data).Ok?) &&
                       parseName(tokens[3].data, origin).Ok?
    ensures r.Ok? ==> ParseU16(tokens[0].data) == Ok(r.value.priority) &&
                      ParseU16(tokens[1].data) == Ok(r.value.weight) &&
                      ParseU16(tokens[2].data) == Ok(r.value.port) &&
                      parseName(tokens[3].data, origin) == Ok(r.value.target)
  {
    var priority :- U16Field(tokens, 0, FieldNames[0]);
    var weight :- U16Field(tokens, 1, FieldNames[1]);
    var port :- U16Field(tokens, 2, FieldNames[2]);
    var name :- CharField(tokens, 3, FieldNames[3]);
    var target :- parseName(name, origin);
    Ok(SRV.New(priority, weight, port, target))
  }

  /** Tokens after the fourth are not looked at. */
  lemma ParseIgnoresExtra(tokens: seq<Token>, extra: seq<Token>, origin: Option<DnsName.Name>,
                          parseName: (Str, Option<DnsName.Name>) -> Result<DnsName.Name, ParseError>)
    requires |tokens| >= 4
    ensures Parse(tokens + extra, origin, parseName) == Parse(tokens, origin, parseName)
  {
    var all := tokens + extra;
    assert all[0] == tokens[0] && all[1] == tokens[1] && all[2] == tokens[2] && all[3] == tokens[3];
  }

  /** When the tokens run out but every one there is good, the error names the first field with no token. */
  lemma ParseNamesMissingField(tokens: seq<Token>, origin: Option<DnsName.Name>,
                               parseName: (Str, Option<DnsName.Name>) -> Result<DnsName.Name, ParseError>)
    requires |tokens| < 4
    requires forall i :: 0 <= i < |tokens| ==> tokens[i].CharData? && ParseU16(tokens[i].data).Ok?
    ensures Parse(tokens, origin, parseName) == Err(MissingToken(FieldNames[|tokens|]))
  {
  }

  /** A token that is not character data is reported as it is, if every field before it is good. */
  lemma ParseRejectsForeignToken(tokens: seq<Token>, k: nat, origin: Option<DnsName.Name>,
                                 parseName: (Str, Option<DnsName.Name>) -> Result<DnsName.Name, ParseError>)
    requires k < 4 && k < |tokens| && !tokens[k].CharData?
    requires forall i :: 0 <= i < k ==> tokens[i].CharData? && ParseU16(tokens[i].data).Ok?
    ensures Parse(tokens, origin, parseName) == Err(UnexpectedToken(tokens[k]))
  {
  }

  /**
   * A numeric field that is character data `u16::from_str` rejects is
   * reported with that error kind, if every field before it is good.
   */
  lemma ParseRejectsBadNumber(tokens: seq<Token>, k: nat, origin: Option<DnsName.Name>,
                              parseName: (Str, Option<DnsName.Name>) -> Result<DnsName.Name, ParseError>)
    requires k < 3 && k < |tokens| && tokens[k].CharData? && ParseU16(tokens[k].data).Err?
    requires forall i :: 0 <= i < k ==> tokens[i].CharData? && ParseU16(tokens[i].data).Ok?
    ensures Parse(tokens, origin, parseName) == Err(ParseInt(ParseU16(tokens[k].data).error))
  {
  }

  /**
   * The fields written as `"{priority} {weight} {port} {target}"`
   * tokenize to four character-data tokens that parse back to the record,
   * given a name parser that reads the target's text back.
   */
  lemma ParseDisplayed(r: SRV, nameText: Str, extra: seq<Token>, origin: Option<DnsName.Name>,
                       parseName: (Str, Option<DnsName.Name>) -> Result<DnsName.Name, ParseError>)
    requires parseName(nameText, origin) == Ok(r.target)
    ensures Parse([CharData(DecimalText(r.priority)), CharData(DecimalText(r.weight)),
                   CharData(DecimalText(r.port)), CharData(nameText)] + extra, origin, parseName) == Ok(r)
  {
    var tokens := [CharData(DecimalText(r.priority)), CharData(DecimalText(r.weight)),
                   CharData(DecimalText(r.port)), CharData(nameText)];
    ParseIgnoresExtra(tokens, extra, origin, parseName);
    ParseDisplayedU16(r.priority);
    ParseDisplayedU16(r.weight);
    ParseDisplayedU16(r.port);
  }
}
