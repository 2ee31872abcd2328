/**
 * The SVCB/HTTPS presentation parser: three whitespace-delimited fields,
 * priority, target and the block of parameters, each handed to its own
 * reader.
 */
module SvcbText {
  import opened Wrappers
  import opened Bytes
  import DnsName
  import opened Txt
  import opened Svcb

  /** The name parser, given the origin relative names are completed with. */
  type NameParser = (Str, Option<DnsName.Name>) -> Result<DnsName.Name, ParseError>

  /** The reader of the parameter block (`SVCBKeyValues::parse`). */
  type ValuesParser = Str -> Result<seq<KeyValue>, ParseError>

  /** The fields in the order `parse` takes them, as its missing-token errors name them. */
  const FieldNames: seq<string> := ["priority", "target", "values"]

  /** The `i`-th token, or the missing-token error naming `field`. */
  function Token(tokens: seq<Str>, i: nat, field: string): (r: Result<Str, ParseError>)
    ensures r.Ok? <==> i < |tokens|
    ensures r.Ok? ==> r.value == tokens[i]
    ensures r.Err? ==> r.error == MissingToken(field)
  {
    if i < |tokens| then Ok(tokens[i]) else Err(MissingToken(field))
  }

  /**
   * `parse`: priority through `u16::from_str`, target through the name
   * parser, the parameters through the value reader; the first failure is
   * returned, and every field of the result comes from its own token.
   */
  function Parse(tokens: seq<Str>, origin: Option<DnsName.Name>,
                 parseName: NameParser, parseValues: ValuesParser): (r: Result<SVCB, ParseError>)
    ensures r.Ok? <==> |tokens| >= 3 && ParseU16(tokens[0]).Ok? &&
                       parseName(tokens[1], origin).Ok? && parseValues(tokens[2]).Ok?
    ensures r.Ok? ==> r.value == SVCB(ParseU16(tokens[0]).value, parseName(tokens[1], origin).value,
                                      parseValues(tokens[2]).value)
  {
    var text :- Token(tokens, 0, FieldNames[0]);
    var priority :- match ParseU16(text)
      case Ok(v) => Ok(v)
      case Err(k) => Err(ParseInt(k));
    var name :- Token(tokens, 1, FieldNames[1]);
    var target :- parseName(name, origin);
    var block :- Token(tokens, 2, FieldNames[2]);
    var values :- parseValues(block);
    Ok(SVCB.New(priority, target, values))
  }

  /** Tokens after the third are not looked at. */
  lemma ParseIgnoresExtra(tokens: seq<Str>, extra: seq<Str>, origin: Option<DnsName.Name>,
                          parseName: NameParser, parseValues: ValuesParser)
    requires |tokens| >= 3
    ensures Parse(tokens + extra, origin, parseName, parseValues) == Parse(tokens, origin, parseName, parseValues)
  {
    var all := tokens + extra;
    assert all[0] == tokens[0] && all[1] == tokens[1] && all[2] == tokens[2];
  }

  /** Errors come in field order: the first field that is missing or fails decides. */
  lemma ParseErrors(tokens: seq<Str>, origin: Option<DnsName.Name>,
                    parseName: NameParser, parseValues: ValuesParser)
    ensures var r := Parse(tokens, origin, parseName, parseValues);
            (|tokens| == 0 ==> r == Err(MissingToken("priority"))) &&
            (|tokens| >= 1 && ParseU16(tokens[0]).Err? ==> r == Err(ParseInt(ParseU16(tokens[0]).error))) &&
            (|tokens| == 1 && ParseU16(tokens[0]).Ok? ==> r == Err(MissingToken("target"))) &&
            (|tokens| >= 2 && ParseU16(tokens[0]).Ok? && parseName(tokens[1], origin).Err? ==>
               r == Err(parseName(tokens[1], origin).error)) &&
            (|tokens| == 2 && ParseU16(tokens[0]).Ok? && parseName(tokens[1], origin).Ok? ==>
               r == Err(MissingToken("values"))) &&
            (|tokens| >= 3 && ParseU16(tokens[0]).Ok? && parseName(tokens[1], origin).Ok? ==>
               (r.Err? <==> parseValues(tokens[2]).Err?) &&
               (r.Err? ==> r.error == parseValues(tokens[2]).error))
  {
  }

  /** The whitespace-delimited fields of a line, split at every space. */
  function Fields(t: Str): (fs: seq<Str>)
    ensures |fs| >= 1
    decreases |t|
  {
    var split := SplitAt(t, 0x20);
    if split.1.None? then [split.0] else [split.0] + Fields(split.1.value)
  }

  lemma FieldsCons(a: Str, rest: Str)
    requires 0x20 !in a
    ensures Fields(a + [0x20] + rest) == [a] + Fields(rest)
  {
    SplitAtFirst(a, 0x20, rest);
  }

  lemma FieldsLast(a: Str)
    requires 0x20 !in a
    ensures Fields(a) == [a]
  {
  }

  lemma ThreeFields(a: Str, b: Str, c: Str)
    requires 0x20 !in a && 0x20 !in b && 0x20 !in c
    ensures Fields(a + [0x20] + b + [0x20] + c) == [a, b, c]
  {
    assert a + [0x20] + b + [0x20] + c == a + [0x20] + (b + [0x20] + c);
    FieldsCons(a, b + [0x20] + c);
    FieldsCons(b, c);
    FieldsLast(c);
  }

  /**
   * The presentation with a separator between pairs reads back whole: its
   * fields tokenize to exactly priority, target and parameter block, and
   * parse to the record. This holds for any name parser that reads the
   * target's text back and any value reader that reads the joined pairs
   * back, when neither the target's text nor any value contains a space.
   */
  lemma CorrectedTextRoundTrip(s: SVCB, nameText: DnsName.Name -> Str, sep: byte, origin: Option<DnsName.Name>,
                               parseName: NameParser, parseValues: ValuesParser)
    requires sep != 0x20
    requires parseName(nameText(s.target), origin) == Ok(s.target) && 0x20 !in nameText(s.target)
    requires parseValues(JoinedPairsText(s.values, sep)) == Ok(s.values)
    requires forall i :: 0 <= i < |s.values| ==> 0x20 !in s.values[i].value
    ensures var tokens := Fields(TextCorrected(s, nameText, sep));
            |tokens| == 3 && Parse(tokens, origin, parseName, parseValues) == Ok(s)
  {
    var d, n, p := DecimalText(s.priority), nameText(s.target), JoinedPairsText(s.values, sep);
    assert 0x20 !in d;
    NoSpaceInJoinedPairs(s.values, sep);
    ThreeFields(d, n, p);
    ParseDisplayedU16(s.priority);
  }

  /**
   * A value reader with the hypothesis `CorrectedTextRoundTrip` needs: it
   * splits at the separator and each piece at its first `=`.
   */
  function PairsReader(sep: byte): ValuesParser {
    t => match ParsePairs(t, sep)
         case Some(vs) => Ok(vs)
         case None => Err(Msg("malformed key=value list"))
  }

  /** `PairsReader` reads joined pairs back when no value contains the separator. */
  lemma PairsReaderReadsJoined(vs: seq<KeyValue>, sep: byte)
    requires IsSeparator(sep)
    requires forall i :: 0 <= i < |vs| ==> sep !in vs[i].value
    ensures PairsReader(sep)(JoinedPairsText(vs, sep)) == Ok(vs)
  {
    JoinedPairsRoundTrip(vs, sep);
  }

  lemma {:induction false} NoSpaceInJoinedPairs(vs: seq<KeyValue>, sep: byte)
    requires sep != 0x20
    requires forall i :: 0 <= i < |vs| ==> 0x20 !in vs[i].value
    ensures 0x20 !in JoinedPairsText(vs, sep)
    decreases |vs|
  {
    if vs != [] {
      assert 0x20 !in KeyName(vs[0].key);
      if |vs| > 1 {
        assert forall i :: 0 <= i < |vs[1..]| ==> vs[1..][i] == vs[i + 1];
        NoSpaceInJoinedPairs(vs[1..], sep);
      }
    }
  }
}
