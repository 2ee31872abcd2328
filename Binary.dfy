/**
 * The bounded binary cursor the record codecs read from and write to: a
 * decoder over the bytes of one record with a read position, and an encoder
 * that appends to an output buffer bounded by a maximum size.
 *
 * Reading is specified twice: as functions over (buffer, position) that give
 * the value read and the position after it, and as decoder methods whose
 * contracts are those functions.
 */
module Binary {
  import opened Wrappers
  import opened Bytes

  /** Why an `unwrap()` in a reader would panic. */
  datatype Panic = UnregisteredKey(code: u16) | InvalidUtf8

  datatype DecodeError =
    | InsufficientBytes              // a read ran past the end of the record
    | UnrecognizedLabelType(b: byte) // a name label octet the uncompressed format does not allow
    | Panicked(reason: Panic)        // the source unwraps here and the thread panics

  datatype EncodeError = MaxSizeExceeded

  /** `read_u16` on the unread bytes `rest`: the value and what is left after it. */
  function ReadU16From(rest: seq<byte>): (r: Result<(u16, seq<byte>), DecodeError>)
    ensures r.Err? <==> |rest| < 2
    ensures r.Err? ==> r.error == InsufficientBytes
    ensures r.Ok? ==> rest == U16Bytes(r.value.0) + r.value.1
  {
    if |rest| < 2 then Err(InsufficientBytes)
    else
      U16BytesOfBigEndian(rest[0], rest[1]);
      assert rest == [rest[0], rest[1]] + rest[2..];
      Ok((BigEndian(rest[0], rest[1]), rest[2..]))
  }

  /** `read_vec(n)` on the unread bytes `rest`: the next `n` bytes and what is left. */
  function ReadVecFrom(rest: seq<byte>, n: nat): (r: Result<(seq<byte>, seq<byte>), DecodeError>)
    ensures r.Err? <==> |rest| < n
    ensures r.Err? ==> r.error == InsufficientBytes
    ensures r.Ok? ==> |r.value.0| == n && rest == r.value.0 + r.value.1
  {
    if |rest| < n then Err(InsufficientBytes)
    else
      assert rest == rest[..n] + rest[n..];
      Ok((rest[..n], rest[n..]))
  }

  class BinDecoder {
    const buffer: seq<byte>
    var pos: nat

    ghost predicate Valid()
      reads this
    {
      pos <= |buffer|
    }

    constructor (bytes: seq<byte>)
      ensures Valid() && buffer == bytes && pos == 0
    {
      buffer := bytes;
      pos := 0;
    }

    /** The bytes of the record not read yet. */
    function Unread(): (rest: seq<byte>)
      reads this
      requires Valid()
      ensures |rest| == |buffer| - pos
    {
      buffer[pos..]
    }

    /** `len()`: how many bytes of the record are still unread. */
    function Remaining(): (n: nat)
      reads this
      requires Valid()
      ensures n == |Unread()|
    {
      |buffer| - pos
    }

    method ReadU16() returns (r: Result<u16, DecodeError>)
      requires Valid()
      modifies this
      ensures Valid()
      ensures match ReadU16From(old(Unread()))
              case Ok((v, rest)) => r == Ok(v) && Unread() == rest
              case Err(e) => r == Err(e) && pos == old(pos)
    {
      if |buffer| - pos < 2 {
        return Err(InsufficientBytes);
      }
      r := Ok(BigEndian(buffer[pos], buffer[pos + 1]));
      pos := pos + 2;
    }

    method ReadVec(n: nat) returns (r: Result<seq<byte>, DecodeError>)
      requires Valid()
      modifies this
      ensures Valid()
      ensures match ReadVecFrom(old(Unread()), n)
              case Ok((v, rest)) => r == Ok(v) && Unread() == rest
              case Err(e) => r == Err(e) && pos == old(pos)
    {
      if |buffer| - pos < n {
        return Err(InsufficientBytes);
      }
      assert buffer[pos..][..n] == buffer[pos..pos + n] && buffer[pos..][n..] == buffer[pos + n..];
      r := Ok(buffer[pos..pos + n]);
      pos := pos + n;
    }

    /** Skips to where `rest` begins, for readers specified by a function. */
    method SkipTo(rest: seq<byte>)
      requires Valid() && |rest| <= |Unread()| && Unread()[|Unread()| - |rest|..] == rest
      modifies this
      ensures Valid() && Unread() == rest
    {
      pos := |buffer| - |rest|;
    }
  }

  /**
   * The outcome of a write of `w` that took the buffer from `before` to
   * `after`: it succeeds exactly when `w` fits, then appends exactly `w`; a
   * failure leaves a prefix of `w` written.
   */
  predicate Emitted(before: seq<byte>, after: seq<byte>, w: seq<byte>, ok: bool, maxSize: nat) {
    (ok <==> |before| + |w| <= maxSize) &&
    (ok ==> after == before + w) &&
    before <= after && after <= before + w
  }

  /** A successful write of `w1` followed by a write of `w2` is a write of `w1 + w2`. */
  lemma EmittedThen(b0: seq<byte>, b1: seq<byte>, b2: seq<byte>, w1: seq<byte>, w2: seq<byte>, ok: bool, maxSize: nat)
    requires Emitted(b0, b1, w1, true, maxSize) && Emitted(b1, b2, w2, ok, maxSize)
    ensures Emitted(b0, b2, w1 + w2, ok, maxSize)
  {
    assert b1 + w2 == b0 + (w1 + w2);
    assert b0 == b1[..|b0|] && b1[..|b0|] == b2[..|b0|];
  }

  /** A write of `w1` that failed is a failed write of `w1 + w2`. */
  lemma EmittedStop(b0: seq<byte>, b1: seq<byte>, w1: seq<byte>, w2: seq<byte>, maxSize: nat)
    requires Emitted(b0, b1, w1, false, maxSize)
    ensures Emitted(b0, b1, w1 + w2, false, maxSize)
  {
    assert (b0 + (w1 + w2))[..|b1|] == (b0 + w1)[..|b1|];
  }

  /** Nothing written is a successful write of nothing. */
  lemma EmittedNothing(b: seq<byte>, maxSize: nat)
    requires |b| <= maxSize
    ensures Emitted(b, b, [], true, maxSize)
  {
    assert b + [] == b;
  }

  class BinEncoder {
    var buffer: seq<byte>
    const maxSize: nat
    const canonicalNames: bool

    ghost predicate Valid()
      reads this
    {
      |buffer| <= maxSize
    }

    constructor (maxSize: nat, canonicalNames: bool)
      ensures Valid() && buffer == []
      ensures this.maxSize == maxSize && this.canonicalNames == canonicalNames
    {
      buffer := [];
      this.maxSize := maxSize;
      this.canonicalNames := canonicalNames;
    }

    /** `is_canonical_names()`: whether names are to be written in DNSSEC canonical form. */
    function IsCanonicalNames(): (c: bool)
      reads this
      ensures c == canonicalNames
    {
      canonicalNames
    }

    /** `emit_vec`: appends `bytes`, or fails and leaves the buffer as it was. */
    method EmitVec(bytes: seq<byte>) returns (r: Result<(), EncodeError>)
      requires Valid()
      modifies this
      ensures Valid()
      ensures r.Ok? <==> |old(buffer)| + |bytes| <= maxSize
      ensures buffer == if r.Ok? then old(buffer) + bytes else old(buffer)
    {
      if |buffer| + |bytes| > maxSize {
        return Err(MaxSizeExceeded);
      }
      buffer := buffer + bytes;
      r := Ok(());
    }

    /** `emit_u16`: appends the two network-order octets of `v`. */
    method EmitU16(v: u16) returns (r: Result<(), EncodeError>)
      requires Valid()
      modifies this
      ensures Valid()
      ensures r.Ok? <==> |old(buffer)| + 2 <= maxSize
      ensures buffer == if r.Ok? then old(buffer) + U16Bytes(v) else old(buffer)
    {
      r := EmitVec(U16Bytes(v));
    }
  }
}
