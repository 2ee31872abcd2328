# trust-dns SVCB/HTTPS and SRV record-data codecs in Dafny

This project models the per-record data codecs that trust-dns has for two
record types:

- **SVCB and HTTPS** (RFC 9460). It covers the SvcParamKey registry
  (`SVCB_MAP` and the `#[repr(u16)]` discriminants), the key and parameter
  `Display`s, the binary reader `read` and emitter `emit`, the record's
  `Display`, and the three-token presentation parser of the client crate.
- **SRV** (RFC 2782). It covers the record data with its constructor and
  getters, the binary `read`/`emit` pair, and the four-token presentation
  parser.

## Modules

One module per file:

- `Wrappers`: `Option` and `Result`.
- `Bytes`: octets, network-order u16, the `as u16` cast, and UTF-8 validity after Table 3-7 of the Unicode standard. Rust `String`s are modelled as their UTF-8 octets.
- `Binary`: the parts of `BinDecoder`/`BinEncoder` the codecs use.
  - Each read is a function on the unread octets. It returns the value and the rest, plus a decoder class with a mutable position whose methods are proved against those functions.
  - The encoder is a class holding the output so far. It has a size bound that makes writes fail.
  - The `Emitted` predicate states what a write that succeeds or fails leaves behind.
- `DnsName`: a domain name as RFC 1035 labels with the uncompressed wire form (section 3.1 of RFC 1035). It has `Name::read`, `emit` and `emit_with_lowercase`.
- `Txt`: tokens, parse errors, Rust's `u16::from_str` and an integer's `Display`.
- `Svcb`: the SVCB/HTTPS record data.
- `SvcbText`: the SVCB presentation parser.
- `Srv`: the SRV record data and its parser.

## How it is modelled

**Readers.** Each reader is specified by a function on the octets that remain, such as `Svcb.ReadFrom`. Its contract says:

- what it returns;
- that exactly the wire form of that value was consumed.

The reader methods run the source's loop over a `BinDecoder` whose position moves. They are proved to return what the specifying function returns and to leave exactly what it leaves.
A `.unwrap()` that would panic is a failure `Panicked(...)`. This covers an unregistered key code and value octets that are not UTF-8.

**Emitters.** Each emitter appends to a `BinEncoder`. It is proved to succeed exactly when the whole wire form fits, and then to append exactly that form. On a failure, what was written is a prefix of that form.

**Parsers.** The presentation parsers are functions over the token sequence. Two collaborators are parameters because the source calls them without defining them:

- the name parser, `Name::parse` with its origin;
- the parameter-block reader, `SVCBKeyValues::parse`.

## Model

| member | source | states |
|---|---|---|
| Svcb.RegistryCodes | crates/proto/src/rr/rdata/svcb.rs:16-30 | `SVCB_MAP` holds exactly the nine codes 0-6, 32769 and 65535 |
| Svcb.RegistryInverse | crates/proto/src/rr/rdata/svcb.rs:16-44 | for every key, `SVCB_MAP[k as u16] == k`; for every registered code, `SVCB_MAP[c] as u16 == c`. So the emitter's cast and the reader's lookup invert each other |
| Svcb.KeyText | crates/proto/src/rr/rdata/svcb.rs:46-61 | each key's display name is made only of lower-case letters, digits and `-`; the display name is empty exactly for `Reserved` |
| Svcb.KeyName | crates/proto/src/rr/rdata/svcb.rs:46-61 | the display name as octets is ASCII, uses only name characters, and is empty exactly for `Reserved` |
| Svcb.KeyNamesDistinct | crates/proto/src/rr/rdata/svcb.rs:46-61 | two different keys never display alike |
| Svcb.SVCB.New | crates/proto/src/rr/rdata/svcb.rs:84-99 | `SVCB::new` stores its arguments. `priority()` and `target()` return the priority and the target it was given |
| Svcb.ParamsWireLength | crates/proto/src/rr/rdata/svcb.rs:133-137 | the parameters take Σ (4 + length of value) octets on the wire |
| Svcb.WireLength | crates/proto/src/rr/rdata/svcb.rs:127-139 | an emitted record is 2 + name length + Σ (4 + length of value) octets, whatever the canonical-names flag |
| Svcb.CanonicalOnlyLowersTarget | crates/proto/src/rr/rdata/svcb.rs:128-132 | the canonical-names flag only lower-cases the target. The priority octets and the parameter octets are the same either way |
| Svcb.ReadParamFrom | crates/proto/src/rr/rdata/svcb.rs:112-121 | one loop iteration consumes exactly the wire form of the parameter it yields: code, length L, then L octets |
| Svcb.ReadParamFailures | crates/proto/src/rr/rdata/svcb.rs:112-119 | given a four-octet header, an iteration fails in this order. An unregistered code panics; then L exceeding what remains gives `InsufficientBytes`; then non-UTF-8 value octets panic. Otherwise it yields the key, the L octets and the rest |
| Svcb.ParamsFrom | crates/proto/src/rr/rdata/svcb.rs:110-122 | the loop consumes exactly the wire form of the parameters it yields, in read order. It stops with fewer than `least` octets left, and those stay unread (for `read`, `least` is 5) |
| Svcb.ParamsStep | crates/proto/src/rr/rdata/svcb.rs:111-122 | while the guard holds, the loop is one iteration followed by the rest of the loop, and a failing iteration ends it with that failure |
| Svcb.ShortTailIsIgnored | crates/proto/src/rr/rdata/svcb.rs:111 | four octets or fewer after the target are neither read nor consumed |
| Svcb.ReadFrom | crates/proto/src/rr/rdata/svcb.rs:107-124 | `read` consumes exactly the wire form of the record it returns (canonical names off), and leaves fewer octets than the guard needs |
| Svcb.Read | crates/proto/src/rr/rdata/svcb.rs:107-124 | the decoder method returns what `ReadFrom` gives for the octets it had not yet read, and on success leaves exactly the rest unread |
| Svcb.ReadParams | crates/proto/src/rr/rdata/svcb.rs:110-122 | the `while decoder.len() > 4` loop with `push` returns the parameters `ParamsFrom` gives, and leaves its rest unread |
| Svcb.ReadParam | crates/proto/src/rr/rdata/svcb.rs:112-121 | the loop body returns what `ReadParamFrom` gives and leaves its rest unread |
| Svcb.ReadParamOfWire | crates/proto/src/rr/rdata/svcb.rs:112-136 | a parameter with a value under 65536 octets that is UTF-8 reads back from its own wire form, whatever follows it |
| Svcb.ParamsRoundTrip | crates/proto/src/rr/rdata/svcb.rs:111-137 | emitted parameters read back whole when every value is emittable. Under the source's guard this also needs the last value to be non-empty |
| Svcb.RoundTrip | crates/proto/src/rr/rdata/svcb.rs:163-189 | `read(emit(s)) == s` with nothing left over when every value is under 65536 octets and UTF-8 and the last value is not empty |
| Svcb.UnitTestRecordRoundTrips | crates/proto/src/rr/rdata/svcb.rs:163-189 | the record of `test_parse_from_rdata` (priority 1, `_dns._tcp.example.com`, `alpn=rip`) reads back equal |
| Svcb.EmptyFinalValueDropped | crates/proto/src/rr/rdata/svcb.rs:111 | a record whose only parameter is an empty `no-default-alpn` emits `[0,1,0,0,2,0,0]` and reads back with no parameters, leaving `[0,2,0,0]` unread |
| Svcb.LongValueLengthWraps | crates/proto/src/rr/rdata/svcb.rs:135 | a 65536-octet value has its length written as 0. The reader then yields an empty value and treats the value octets as further input |
| Svcb.ReadCorrected | crates/proto/src/rr/rdata/svcb.rs:107-124 | `read` with the guard `decoder.len() >= 4` returns what `ReadFrom` with guard 4 gives |
| Svcb.RoundTripCorrected | crates/proto/src/rr/rdata/svcb.rs:111-124 | with the guard `>= 4`, every record whose values are under 65536 octets and UTF-8 reads back whole, including empty final values |
| Svcb.Emit | crates/proto/src/rr/rdata/svcb.rs:127-139 | `emit` reads the canonical-names flag once. It succeeds exactly when the whole wire form fits, and then appends priority, target (lower-cased when canonical), then code/length/octets per parameter in list order. A failure leaves a prefix of that |
| Svcb.EmitParams | crates/proto/src/rr/rdata/svcb.rs:133-137 | the loop over the parameters appends their wire forms in list order, or fails having written a prefix of them |
| Svcb.EmitParam | crates/proto/src/rr/rdata/svcb.rs:134-136 | one iteration writes the code, the length as u16 and the value octets |
| Svcb.FormatValues | crates/proto/src/rr/rdata/svcb.rs:143-146 | the `push_str` loop builds the concatenation of every `{key}={value}` in list order |
| Svcb.Format | crates/proto/src/rr/rdata/svcb.rs:141-155 | `Display` yields `{priority} {target} {values}` |
| Svcb.TextStartsWithPriority | crates/proto/src/rr/rdata/svcb.rs:147-153 | the displayed text's first space-delimited field is the priority in decimal, and `u16::from_str` gives the priority back from it |
| Svcb.DisplayConflatesParams | crates/proto/src/rr/rdata/svcb.rs:143-153 | two different records display alike: `alpn=a` then `port=1`, against a single `alpn` whose value is `aport=1` |
| Svcb.FindKeyOfName | crates/proto/src/rr/rdata/svcb.rs:46-61 | since the display names are distinct, looking a key up by its display name finds that key |
| Svcb.ParsePairOfText | crates/proto/src/rr/rdata/svcb.rs:69-73 | a parameter's `{key}={value}` text reads back to that parameter |
| Svcb.JoinedPairsRoundTrip | crates/proto/src/rr/rdata/svcb.rs:143-146 | with a separator between pairs that is not `=`, not a key-name character and in no value, the parameters read back from their text |
| SvcbText.Token | crates/client/src/serialize/txt/rdata_parsers/svcb.rs:13-26 | `tokens.next()`: the token when one is there, otherwise `MissingToken` naming the field |
| SvcbText.Parse | crates/client/src/serialize/txt/rdata_parsers/svcb.rs:9-29 | `parse` succeeds exactly when there are three tokens, the first is a decimal u16, the name parser accepts the second and the value reader accepts the third. The result has those three results as priority, target and parameters |
| SvcbText.ParseErrors | crates/client/src/serialize/txt/rdata_parsers/svcb.rs:13-26 | errors follow field order: the first field that is missing or fails decides. Missing tokens give `MissingToken("priority")`, then `"target"`, then `"values"`; a bad priority gives `ParseInt` with `u16::from_str`'s error kind |
| SvcbText.ParseIgnoresExtra | crates/client/src/serialize/txt/rdata_parsers/svcb.rs:13-28 | tokens after the third are never looked at |
| SvcbText.CorrectedTextRoundTrip | crates/client/src/serialize/txt/rdata_parsers/svcb.rs:9-29 | the display with a separator between pairs tokenizes to three fields, and `parse` reads them back to the record. This assumes a name parser that reads the target's text back, a value reader that reads the joined pairs back, and values with no space |
| SvcbText.PairsReaderReadsJoined | crates/proto/src/rr/rdata/svcb.rs:143-146 | a value reader exists for that hypothesis: splitting at the separator and each piece at its first `=` reads the joined pairs back when no value contains the separator |
| Srv.SRV.New | src/rr/rdata/srv.rs:100-174 | `SRV::new` stores its arguments, and each getter returns the corresponding one |
| Srv.ReadFrom | src/rr/rdata/srv.rs:177-184 | `read` consumes exactly the wire form of the record it returns: priority, weight, port, then the target |
| Srv.ShortInputFails | src/rr/rdata/srv.rs:177-184 | fewer than six octets always fail with `InsufficientBytes` |
| Srv.FieldsAreFirst | src/rr/rdata/srv.rs:177-184 | in what was read, the first six octets are priority, weight and port in network order |
| Srv.RoundTrip | src/rr/rdata/srv.rs:206-221 | `read(emit(r)) == r` with canonical names off, and whatever follows the record stays unread |
| Srv.Read | src/rr/rdata/srv.rs:177-184 | the decoder method returns what `ReadFrom` gives and leaves its rest unread |
| Srv.Emit | src/rr/rdata/srv.rs:186-192 | `emit` succeeds exactly when priority, weight, port and target all fit, and then appends them in that order. A failure leaves a prefix of them |
| Srv.CharField | src/rr/rdata/srv.rs:198-201 | a field's token must exist (else `MissingToken` naming the field) and be character data (else `UnexpectedToken` carrying the token) |
| Srv.U16Field | src/rr/rdata/srv.rs:198-200 | a numeric field succeeds exactly when its token is character data that `u16::from_str` accepts, with that value |
| Srv.Parse | src/rr/rdata/srv.rs:195-204 | it succeeds exactly when there are four character-data tokens, `u16::from_str` accepts the first three and the name parser accepts the fourth. Priority, weight and port are then those numbers, and the target is the name parser's result |
| Srv.ParseRejectsBadNumber | src/rr/rdata/srv.rs:198-200 | the first numeric field that `u16::from_str` rejects is reported as `ParseInt` with that error kind, provided the fields before it are good |
| Srv.ParseIgnoresExtra | src/rr/rdata/srv.rs:195-204 | tokens after the fourth are never looked at |
| Srv.ParseNamesMissingField | src/rr/rdata/srv.rs:198-201 | when the tokens run out and every token present is good, the error names the first absent field: `priority`, `weight`, `port`, `target` |
| Srv.ParseRejectsForeignToken | src/rr/rdata/srv.rs:198-201 | the first token that is not character data is reported with `UnexpectedToken`, provided the fields before it are good |
| Srv.ParseDisplayed | src/rr/rdata/srv.rs:195-204 | the decimal texts of priority, weight and port followed by the target's text parse back to the record. This assumes a name parser that reads that text back |
| Txt.ParseU16 | crates/client/src/serialize/txt/rdata_parsers/svcb.rs:16 | `u16::from_str` rejects the empty string with `Empty` |
| Txt.ParseU16Characterized | crates/client/src/serialize/txt/rdata_parsers/svcb.rs:16 | `u16::from_str` accepts exactly an optional `+` followed by decimal digits whose value is at most 65535, and returns that value |
| Txt.ParseDisplayedU16 | crates/proto/src/rr/rdata/svcb.rs:150 | parsing a u16's decimal `Display` gives the u16 back |
| Binary.ReadU16From | crates/proto/src/rr/rdata/svcb.rs:108 | `read_u16` fails with `InsufficientBytes` exactly when fewer than two octets remain. Otherwise it consumes the value's two network-order octets |
| Binary.ReadVecFrom | crates/proto/src/rr/rdata/svcb.rs:116 | `read_vec(n)` fails exactly when fewer than `n` octets remain. Otherwise it consumes exactly the `n` octets it returns |
| Binary.BinEncoder.EmitVec | crates/proto/src/rr/rdata/svcb.rs:136 | `emit_vec` appends the octets exactly when they fit, and otherwise leaves the output unchanged |
| Binary.BinEncoder.EmitU16 | crates/proto/src/rr/rdata/svcb.rs:130 | `emit_u16` appends the value's two network-order octets when they fit |
| DnsName.Decode | crates/proto/src/rr/rdata/svcb.rs:109 | `Name::read` returns a name together with the octets after it |
| DnsName.DecodeConsumesWire | crates/proto/src/rr/rdata/svcb.rs:109 | `Name::read` consumes exactly the wire form of the name it returns |
| DnsName.DecodeWire | crates/proto/src/rr/rdata/svcb.rs:109 | a name reads back from its wire form, whatever follows it |
| DnsName.Read | crates/proto/src/rr/rdata/svcb.rs:109 | the decoder method returns what `Decode` gives and leaves its rest unread |
| DnsName.LowercaseIdempotent | crates/proto/src/rr/rdata/svcb.rs:131-132 | lower-casing a name twice is the same as lower-casing it once |
| DnsName.LowercaseWireLength | crates/proto/src/rr/rdata/svcb.rs:131-132 | lower-casing a name does not change the length of its wire form |
| DnsName.EmitWithLowercase | crates/proto/src/rr/rdata/svcb.rs:131-132 | `emit_with_lowercase` appends the wire form of the name, lower-cased when asked, exactly when it fits |
| DnsName.Emit | src/rr/rdata/srv.rs:190 | `Name::emit` appends the target, lower-cased exactly when the encoder asks for canonical names |
| Svcb.TextIsUtf8 | crates/proto/src/rr/rdata/svcb.rs:141-155 | `Display` writes a `String`: with a UTF-8 target text and UTF-8 values, the whole text is valid UTF-8 |
| Svcb.PairsTextIsUtf8 | crates/proto/src/rr/rdata/svcb.rs:143-146 | the concatenated `{key}={value}` pairs of UTF-8 values are valid UTF-8 |
| Bytes.Utf8Concat | crates/proto/src/rr/rdata/svcb.rs:141-155 | the concatenation of two UTF-8 strings is UTF-8, which is what lets `Display` append pieces to one `String` |
| Bytes.AsciiIsUtf8 | crates/proto/src/rr/rdata/svcb.rs:119 | ASCII octets are valid UTF-8, so an ASCII value passes `String::from_utf8` |

## Left out

- Name compression (section 4.1.4 of RFC 1035) is not modelled, and neither is the 255-octet limit on a name. Names are read and written in the uncompressed form of section 3.1 of RFC 1035. The real `Name::read`, `Name::emit` and `emit_with_lowercase` are not part of this model, and the label model stands in for them.
- `Name::parse`, `Name`'s `Display` and `SVCBKeyValues::parse` are not part of this model. They are function parameters of the parsers and of `Display`, and the round-trip lemmas state as hypotheses what they need of them: `SvcbText.CorrectedTextRoundTrip` takes any value reader that reads the joined pairs back.
- `SvcbText.PairsReader` and the `Svcb.ParsePairs` grammar behind it are this model's own stand-in for a pair reader, not code of the repository; `SvcbText.PairsReaderReadsJoined` only shows that a reader meeting the round-trip hypothesis exists.
- The binary readers take the decoder to hold exactly one record's RDATA, so `decoder.len()` is the octets of that record still unread. The statements that a read leaves nothing behind, or at most 4 octets, are about that record's RDATA.
- Binary round trips are proved with the canonical-names flag off only. With the flag on, the target comes back lower-cased (`Svcb.CanonicalOnlyLowersTarget`).
- The `BinEncoder`'s capacity is modelled as a fixed maximum size. The encoder's other internals are not modelled; neither are the `unverified()` wrappers, which are the identity here.
- `SVCB::value()` is a stub that returns `[1, 2]` and is not modelled.
- The empty tests `test_parse_from_str`, `test_bad_svcb` and `test_https` state nothing and are not modelled.
- The SRV weighted-selection algorithm is not modelled. It appears only in a doc comment, is randomised, and the code does not implement it.
- An SRV text formatter (`"{priority} {weight} {port} {target}"`) is not modelled: `srv.rs` has none. `Srv.ParseDisplayed` states the parse half of that format.
- A fallback key for unregistered codes is not modelled. The code calls `.unwrap()` on the lookup, so the model treats such a code as a failure (`Panicked(UnregisteredKey(code))`).
- Panics are failure values. The model cannot tell a returned error from a thread panic except by the `Panicked` constructor.
- `u16::from_str` is modelled for the error kinds `Empty`, `InvalidDigit` and `PosOverflow`. Its error messages are left out.
- The RFC 9460 rules that the code does not check are not added: key order, AliasMode at priority 0, and per-key value syntax.
- Svcb.Read: its round trip (`Svcb.RoundTrip`) is weaker than "every emitted record reads back". It needs the last value to be non-empty and every value to have fewer than 65536 octets; see Findings and `Svcb.LongValueLengthWraps`.
- Svcb.Format: this is `Display` as written, with no separator between pairs. Its text cannot always be read back (`Svcb.DisplayConflatesParams`).

## Findings

| source | as written | input that shows it | evidently intended | confidence | as-written member | corrected member |
|---|---|---|---|---|---|---|
| crates/proto/src/rr/rdata/svcb.rs:111 | the loop runs `while decoder.len() > 4`, so a final parameter whose value is empty, which leaves exactly its 4 header octets, is never read | `SVCB::new(1, Name::root(), [no-default-alpn=""])`: `emit` writes `[0,1,0,0,2,0,0]` and `read` returns the record without the parameter | `while decoder.len() >= 4`: every parameter with a whole header is read, and `read(emit(s)) == s` for every emittable record | not executed | Svcb.EmptyFinalValueDropped | Svcb.RoundTripCorrected |
| crates/proto/src/rr/rdata/svcb.rs:143-146 | `Display` runs the `{key}={value}` pairs together with no separator, so the parameter list cannot be recovered from the text | `[alpn=a, port=1]` and `[alpn=aport=1]` both display as `1 <target> alpn=aport=1` | a separator between pairs (a space as in the presentation format of RFC 9460, or a comma so the block stays one token for the three-token parser) that no value contains; the text then parses back to the record | not executed | Svcb.DisplayConflatesParams | SvcbText.CorrectedTextRoundTrip |
