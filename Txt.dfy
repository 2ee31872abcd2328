/**
 * What the zone-file record parsers share: the tokens the lexer hands them,
 * their error kinds, and the decimal reading and writing of `u16` values
 * (Rust's `u16::from_str` and the `Display` of integers).
 */
module Txt {
  import opened Wrappers
  import opened Bytes

  /** The zone-file lexer's tokens; only `CharData` carries text a record parser accepts. */
  datatype Token = Blank | StartList | EndList | CharData(data: Str) | At | Include | Origin | EOL

  /** The reasons `u16::from_str` rejects a string. */
  datatype IntErrorKind = Empty | InvalidDigit | PosOverflow

  datatype ParseError =
    | MissingToken(field: string)    // the named field had no token
    | UnexpectedToken(token: Token)  // a token that is not character data
    | ParseInt(kind: IntErrorKind)   // a numeric field that is not a decimal u16
    | Msg(message: string)           // an error raised by a collaborator (name or value parser)

  predicate IsDigit(b: byte) {
    0x30 <= b <= 0x39
  }

  predicate AllDigits(s: Str) {
    forall i :: 0 <= i < |s| ==> IsDigit(s[i])
  }

  /** The number a string of decimal digits denotes (leading zeros allowed). */
  function DecimalValue(s: Str): nat
    requires AllDigits(s)
  {
    if s == [] then 0 else DecimalValue(s[..|s| - 1]) * 10 + (s[|s| - 1] - 0x30)
  }

  /** The digits of a `u16` string, after the optional `+` that Rust accepts. */
  function Unsigned(s: Str): Str {
    if |s| > 0 && s[0] == '+' as int then s[1..] else s
  }

  /** Rust's digit loop: accumulate left to right, failing at the first bad digit or overflow. */
  function Accumulate(ds: Str, acc: u16): Result<u16, IntErrorKind>
  {
    if ds == [] then Ok(acc)
    else if !IsDigit(ds[0]) then Err(InvalidDigit)
    else
      var next := acc * 10 + (ds[0] - 0x30);
      if next > 0xFFFF then Err(PosOverflow) else Accumulate(ds[1..], next)
  }

  /** `u16::from_str`. */
  function ParseU16(s: Str): (r: Result<u16, IntErrorKind>)
    ensures s == [] ==> r == Err(Empty)
  {
    if s == [] then Err(Empty)
    else if s == ['+' as int] then Err(InvalidDigit)
    else Accumulate(Unsigned(s), 0)
  }

  /** A string `u16::from_str` accepts: an optional `+`, then digits whose value fits. */
  predicate IsU16Text(s: Str) {
    var ds := Unsigned(s);
    |ds| > 0 && AllDigits(ds) && DecimalValue(ds) <= 0xFFFF
  }

  lemma {:induction false} DecimalValueGrows(x: Str, y: Str)
    requires AllDigits(x) && AllDigits(y)
    ensures AllDigits(x + y) && DecimalValue(x + y) >= DecimalValue(x)
    decreases |y|
  {
    if y == [] {
      assert x + y == x;
    } else {
      var y' := y[..|y| - 1];
      DecimalValueGrows(x, y');
      assert (x + y)[..|x + y| - 1] == x + y';
    }
  }

  lemma {:induction false} AccumulateIsDecimalValue(p: Str, ds: Str)
    requires AllDigits(p) && DecimalValue(p) <= 0xFFFF
    ensures var r := Accumulate(ds, DecimalValue(p));
            (r.Ok? <==> AllDigits(ds) && AllDigits(p + ds) && DecimalValue(p + ds) <= 0xFFFF) &&
            (r.Ok? ==> r.value == DecimalValue(p + ds))
    decreases |ds|
  {
    if ds == [] {
      assert p + ds == p;
    } else if !IsDigit(ds[0]) {
      assert !AllDigits(ds);
    } else {
      var p' := p + [ds[0]];
      assert p'[..|p'| - 1] == p;
      assert AllDigits(p');
      assert DecimalValue(p') == DecimalValue(p) * 10 + (ds[0] - 0x30);
      assert p' + ds[1..] == p + ds;
      if DecimalValue(p') > 0xFFFF {
        if AllDigits(ds) {
          DecimalValueGrows(p', ds[1..]);
        }
      } else {
        AccumulateIsDecimalValue(p', ds[1..]);
        assert AllDigits(ds) <==> AllDigits(ds[1..]) by {
          if AllDigits(ds[1..]) {
            forall i | 0 <= i < |ds| ensures IsDigit(ds[i]) {
              if i > 0 { assert ds[i] == ds[1..][i - 1]; }
            }
          }
        }
      }
    }
  }

  /** `u16::from_str` accepts exactly the u16 decimal strings, and yields their value. */
  lemma ParseU16Characterized(s: Str)
    ensures ParseU16(s).Ok? <==> IsU16Text(s)
    ensures ParseU16(s).Ok? ==> ParseU16(s).value == DecimalValue(Unsigned(s))
  {
    if s != [] && s != ['+' as int] {
      assert DecimalValue([]) == 0;
      AccumulateIsDecimalValue([], Unsigned(s));
      assert [] + Unsigned(s) == Unsigned(s);
    } else if s == ['+' as int] {
      assert Unsigned(s) == [];
    }
  }

  /** An integer's `Display`: its decimal digits without leading zeros. */
  function DecimalText(n: nat): (t: Str)
    ensures |t| > 0 && AllDigits(t)
    ensures n > 0 ==> t[0] != 0x30
  {
    if n < 10 then [0x30 + n] else DecimalText(n / 10) + [0x30 + n % 10]
  }

  lemma {:induction false} DecimalTextValue(n: nat)
    ensures DecimalValue(DecimalText(n)) == n
  {
    if n >= 10 {
      var t := DecimalText(n);
      assert t[..|t| - 1] == DecimalText(n / 10);
      DecimalTextValue(n / 10);
    } else {
      var t := DecimalText(n);
      assert t[..|t| - 1] == [];
    }
  }

  /** Parsing a displayed `u16` gives it back. */
  lemma ParseDisplayedU16(n: u16)
    ensures ParseU16(DecimalText(n)) == Ok(n)
  {
    var t := DecimalText(n);
    assert t[0] != '+' as int;
    assert Unsigned(t) == t;
    DecimalTextValue(n);
    ParseU16Characterized(t);
  }
}
