/**
 * Domain names as far as the record codecs need them: a sequence of labels,
 * written on the wire uncompressed as in section 3.1 of RFC 1035 (each label
 * as its length octet followed by its octets, then a zero octet for the root),
 * and the lower-casing applied for DNSSEC canonical form.
 */
module DnsName {
  import opened Wrappers
  import opened Bytes
  import opened Binary

  type Label = l: seq<byte> | 1 <= |l| <= 63 witness [0x61]

  datatype Name = Name(labels: seq<Label>)

  function Root(): Name {
    Name([])
  }

  function LabelsWire(ls: seq<Label>): seq<byte> {
    if ls == [] then [0] else [|ls[0]|] + ls[0] + LabelsWire(ls[1..])
  }

  /** The uncompressed wire form of `n`. */
  function Wire(n: Name): seq<byte> {
    LabelsWire(n.labels)
  }

  function DecodeLabels(rest: seq<byte>): (r: Result<(seq<Label>, seq<byte>), DecodeError>)
    ensures r.Ok? ==> |r.value.1| < |rest|
    decreases |rest|
  {
    if rest == [] then Err(InsufficientBytes)
    else if rest[0] == 0 then Ok(([], rest[1..]))
    else if rest[0] > 63 then Err(UnrecognizedLabelType(rest[0]))
    else if |rest| - 1 < rest[0] then Err(InsufficientBytes)
    else
      match DecodeLabels(rest[1 + rest[0]..])
      case Err(e) => Err(e)
      case Ok((ls, after)) => Ok(([rest[1..1 + rest[0]]] + ls, after))
  }

  /** `Name::read` on the unread bytes `rest`: the name and what follows its encoding. */
  function Decode(rest: seq<byte>): (r: Result<(Name, seq<byte>), DecodeError>)
    ensures r.Ok? ==> |r.value.1| < |rest|
  {
    match DecodeLabels(rest)
    case Err(e) => Err(e)
    case Ok((ls, after)) => Ok((Name(ls), after))
  }

  lemma {:induction false} DecodeLabelsConsumesWire(rest: seq<byte>)
    requires DecodeLabels(rest).Ok?
    ensures rest == LabelsWire(DecodeLabels(rest).value.0) + DecodeLabels(rest).value.1
    decreases |rest|
  {
    if rest[0] != 0 {
      var n := rest[0];
      DecodeLabelsConsumesWire(rest[1 + n..]);
      assert rest == [n] + rest[1..1 + n] + rest[1 + n..];
    } else {
      assert rest == [0] + rest[1..];
    }
  }

  /** Reading a name consumes exactly the encoding of the name it returns. */
  lemma DecodeConsumesWire(rest: seq<byte>)
    requires Decode(rest).Ok?
    ensures rest == Wire(Decode(rest).value.0) + Decode(rest).value.1
  {
    DecodeLabelsConsumesWire(rest);
  }

  lemma {:induction false} DecodeLabelsWire(ls: seq<Label>, t: seq<byte>)
    ensures DecodeLabels(LabelsWire(ls) + t) == Ok((ls, t))
    decreases ls
  {
    var b := LabelsWire(ls) + t;
    if ls != [] {
      var l := ls[0];
      assert b == [|l|] + (l + (LabelsWire(ls[1..]) + t));
      assert b[1..1 + |l|] == l;
      assert b[1 + |l|..] == LabelsWire(ls[1..]) + t;
      DecodeLabelsWire(ls[1..], t);
      assert [l] + ls[1..] == ls;
    } else {
      assert b[1..] == t;
    }
  }

  /** The encoding is prefix-free: whatever follows it, the name reads back unchanged. */
  lemma DecodeWire(n: Name, t: seq<byte>)
    ensures Decode(Wire(n) + t) == Ok((n, t))
  {
    DecodeLabelsWire(n.labels, t);
  }

  function ToLowerAscii(b: byte): (c: byte)
    ensures 0x41 <= b <= 0x5A ==> c == b + 0x20
    ensures !(0x41 <= b <= 0x5A) ==> c == b
  {
    if 0x41 <= b <= 0x5A then b + 0x20 else b
  }

  function LowercaseLabel(l: Label): (r: Label)
    ensures |r| == |l| && forall i :: 0 <= i < |l| ==> r[i] == ToLowerAscii(l[i])
  {
    seq(|l|, i requires 0 <= i < |l| => ToLowerAscii(l[i]))
  }

  /** The name with every ASCII upper-case letter of every label lowered. */
  function Lowercase(n: Name): (r: Name)
    ensures |r.labels| == |n.labels|
    ensures forall i :: 0 <= i < |n.labels| ==> r.labels[i] == LowercaseLabel(n.labels[i])
  {
    Name(seq(|n.labels|, i requires 0 <= i < |n.labels| => LowercaseLabel(n.labels[i])))
  }

  lemma LowercaseIdempotent(n: Name)
    ensures Lowercase(Lowercase(n)) == Lowercase(n)
  {
    forall i | 0 <= i < |n.labels|
      ensures Lowercase(Lowercase(n)).labels[i] == Lowercase(n).labels[i]
    {
      var l := Lowercase(n).labels[i];
      assert LowercaseLabel(l) == l;
    }
  }

  lemma {:induction false} LabelsWireLength(ls: seq<Label>, ms: seq<Label>)
    requires |ls| == |ms| && forall i :: 0 <= i < |ls| ==> |ls[i]| == |ms[i]|
    ensures |LabelsWire(ls)| == |LabelsWire(ms)|
    decreases |ls|
  {
    if ls != [] {
      LabelsWireLength(ls[1..], ms[1..]);
    }
  }

  /** Lower-casing a name does not change the length of its encoding. */
  lemma LowercaseWireLength(n: Name)
    ensures |Wire(Lowercase(n))| == |Wire(n)|
  {
    LabelsWireLength(Lowercase(n).labels, n.labels);
  }

  /** `Name::read`: reads one name and leaves the decoder just after it. */
  method Read(d: BinDecoder) returns (r: Result<Name, DecodeError>)
    requires d.Valid()
    modifies d
    ensures d.Valid()
    ensures match Decode(old(d.Unread()))
            case Ok((n, rest)) => r == Ok(n) && d.Unread() == rest
            case Err(e) => r == Err(e) && d.pos == old(d.pos)
  {
    var res := Decode(d.Unread());
    match res {
      case Err(e) =>
        return Err(e);
      case Ok((n, rest)) =>
        DecodeConsumesWire(d.Unread());
        assert d.Unread()[|d.Unread()| - |rest|..] == rest;
        d.SkipTo(rest);
        return Ok(n);
    }
  }

  /** `emit_with_lowercase`: writes the uncompressed form, lower-cased when asked. */
  method EmitWithLowercase(n: Name, e: BinEncoder, lowercase: bool) returns (r: Result<(), EncodeError>)
    requires e.Valid()
    modifies e
    ensures e.Valid()
    ensures var w := Wire(if lowercase then Lowercase(n) else n);
            (r.Ok? <==> |old(e.buffer)| + |w| <= e.maxSize) &&
            e.buffer == if r.Ok? then old(e.buffer) + w else old(e.buffer)
  {
    r := e.EmitVec(Wire(if lowercase then Lowercase(n) else n));
  }

  /** `Name::emit`: the name, lower-cased exactly when the encoder asks for canonical names. */
  method Emit(n: Name, e: BinEncoder) returns (r: Result<(), EncodeError>)
    requires e.Valid()
    modifies e
    ensures e.Valid()
    ensures var w := Wire(if e.canonicalNames then Lowercase(n) else n);
            (r.Ok? <==> |old(e.buffer)| + |w| <= e.maxSize) &&
            e.buffer == if r.Ok? then old(e.buffer) + w else old(e.buffer)
  {
    r := EmitWithLowercase(n, e, e.IsCanonicalNames());
  }
}
