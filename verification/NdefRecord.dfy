/**
  The text record parser (record layout: section 3.2 of the NFC Forum NDEF
  specification 1.0; text payload: section 3.2.1 of the NFC Forum Text RTD 1.0)
  and a printer it inverts.
 */
module NdefRecord {
  import opened Basics

  datatype NdefError =
    | Truncated(part: string)
    | Chunked
    | NotWellKnown
    | NotTextRecord
    | InvalidUtf8

  predicate IsChunked(flags: byte) { flags / 32 % 2 == 1 }
  predicate IsShort(flags: byte) { flags / 16 % 2 == 1 }
  predicate HasId(flags: byte) { flags / 8 % 2 == 1 }
  function TypeNameFormat(flags: byte): byte { flags % 8 }

  const TEXT_TYPE: seq<byte> := [0x54]

  function BigEndian(b: seq<byte>): (n: nat)
    requires |b| == 4
    ensures n < 0x1_0000_0000
  {
    ((b[0] as int * 256 + b[1]) * 256 + b[2]) * 256 + b[3]
  }

  // Where the parts of a record lie.  Each offset needs the bytes before it.

  function IdLengthAt(data: seq<byte>): nat
    requires |data| > 0
  {
    if IsShort(data[0]) then 3 else 6
  }

  function PayloadLength(data: seq<byte>): nat
    requires |data| > 0 && |data| >= IdLengthAt(data)
  {
    if IsShort(data[0]) then data[2] else BigEndian(data[2..6])
  }

  function TypeAt(data: seq<byte>): nat
    requires |data| > 0
  {
    IdLengthAt(data) + if HasId(data[0]) then 1 else 0
  }

  function IdAt(data: seq<byte>): nat
    requires |data| > 1
  {
    TypeAt(data) + data[1]
  }

  function PayloadAt(data: seq<byte>): nat
    requires |data| > 1 && |data| >= TypeAt(data)
  {
    IdAt(data) + if HasId(data[0]) then data[IdLengthAt(data)] else 0
  }

  function RecordEnd(data: seq<byte>): nat
    requires |data| > 1 && |data| >= TypeAt(data)
  {
    PayloadAt(data) + PayloadLength(data)
  }

  /** The payload of a text record, or the first thing wrong with it in reading order. */
  function Parse(data: seq<byte>): Result<seq<byte>, NdefError> {
    if |data| == 0 then Err(Truncated("flags"))
    else if IsChunked(data[0]) then Err(Chunked)
    else if |data| == 1 then Err(Truncated("type length"))
    else if |data| < IdLengthAt(data) then Err(Truncated("payload length"))
    else if |data| < TypeAt(data) then Err(Truncated("ID length"))
    else if |data| < IdAt(data) then Err(Truncated("type"))
    else if |data| < PayloadAt(data) then Err(Truncated("ID"))
    else if |data| < RecordEnd(data) then Err(Truncated("payload"))
    else if TypeNameFormat(data[0]) != 1 then Err(NotWellKnown)
    else if data[TypeAt(data)..IdAt(data)] != TEXT_TYPE then Err(NotTextRecord)
    else Ok(data[PayloadAt(data)..RecordEnd(data)])
  }

  /** The parser as it runs, advancing an index through the record. */
  method ParseTextRecord(data: seq<byte>) returns (r: Result<seq<byte>, NdefError>)
    ensures r == Parse(data)
  {
    var index := 0;
    if |data| <= index {
      return Err(Truncated("flags"));
    }
    var flags := data[index];
    if IsChunked(flags) {
      return Err(Chunked);
    }
    index := index + 1;
    if |data| <= index {
      return Err(Truncated("type length"));
    }
    var typeLength := data[index];
    index := index + 1;

    var payloadLength: nat;
    if IsShort(flags) {
      if |data| <= index {
        return Err(Truncated("payload length"));
      }
      payloadLength := data[index];
      index := index + 1;
    } else {
      if |data| <= index + 3 {
        return Err(Truncated("payload length"));
      }
      payloadLength := BigEndian(data[index..index + 4]);
      index := index + 4;
    }
    assert index == IdLengthAt(data) <= |data| && payloadLength == PayloadLength(data);

    var idLength: byte := 0;
    if HasId(flags) {
      if |data| <= index {
        return Err(Truncated("ID length"));
      }
      idLength := data[index];
      index := index + 1;
    }
    assert index == TypeAt(data) <= |data|;

    var payloadType := [];
    if typeLength > 0 {
      var typeIndex := index;
      index := index + typeLength;
      if |data| < typeIndex + typeLength {
        return Err(Truncated("type"));
      }
      payloadType := data[typeIndex..typeIndex + typeLength];
    }
    assert index == IdAt(data) <= |data| && payloadType == data[TypeAt(data)..IdAt(data)];
    if idLength > 0 {
      index := index + idLength;
      if |data| < index {
        return Err(Truncated("ID"));
      }
    }
    assert index == PayloadAt(data) <= |data|;
    var payload := [];
    if payloadLength > 0 {
      if payloadLength > Max(|data| - index, 0) {
        return Err(Truncated("payload"));
      }
      payload := data[index..index + payloadLength];
    }
    assert RecordEnd(data) <= |data| && payload == data[PayloadAt(data)..RecordEnd(data)];
    if TypeNameFormat(flags) != 1 {
      return Err(NotWellKnown);
    }
    if payloadType != TEXT_TYPE {
      return Err(NotTextRecord);
    }
    return Ok(payload);
  }

  /** Strips the language code; `utf8` decides which byte strings are text. */
  function Text(utf8: seq<byte> -> bool, payload: seq<byte>): Result<seq<byte>, NdefError> {
    if payload == [] then Ok([])
    else
      var codeLength := payload[0] % 64;
      if |payload| < codeLength + 1 then Err(Truncated("text payload"))
      else if !utf8(payload[codeLength + 1..]) then Err(InvalidUtf8)
      else Ok(payload[codeLength + 1..])
  }

  // ------------------------------------------------------------------
  // Stability under more data.

  lemma {:induction false} OffsetsStable(data: seq<byte>, rest: seq<byte>)
    requires |data| > 1 && |data| >= TypeAt(data)
    ensures TypeAt(data + rest) == TypeAt(data) && IdAt(data + rest) == IdAt(data)
    ensures PayloadAt(data + rest) == PayloadAt(data) && RecordEnd(data + rest) == RecordEnd(data)
  {
    assert IsShort(data[0]) || (data + rest)[2..6] == data[2..6];
  }

  /** Whatever the parser decides about a prefix, other than that it is too short, stands. */
  lemma {:induction false} ParseIsStable(data: seq<byte>, rest: seq<byte>)
    requires !(Parse(data).Err? && Parse(data).error.Truncated?)
    ensures Parse(data + rest) == Parse(data)
  {
    if !IsChunked(data[0]) {
      OffsetsStable(data, rest);
      assert (data + rest)[TypeAt(data)..IdAt(data)] == data[TypeAt(data)..IdAt(data)];
      assert (data + rest)[PayloadAt(data)..RecordEnd(data)] == data[PayloadAt(data)..RecordEnd(data)];
    }
  }

  function Zeros(n: nat): seq<byte> {
    seq(n, i => 0)
  }

  /** No input is too short beyond repair: enough zero bytes always bring a decision. */
  lemma {:induction false} TruncationIsCurable(data: seq<byte>)
    ensures var r := Parse(data + Zeros(0x1_0000_0000 + 1024));
            !(r.Err? && r.error.Truncated?)
  {
    var all := data + Zeros(0x1_0000_0000 + 1024);
    assert |all| >= 0x1_0000_0000 + 1024;
    assert TypeAt(all) <= 7 && IdAt(all) <= 262 && PayloadAt(all) <= 517;
    assert PayloadLength(all) < 0x1_0000_0000;
  }

  // ------------------------------------------------------------------
  // Printing.

  /** A record in one piece; `bounds` holds the message-begin and message-end bits. */
  datatype Record =
    Record(bounds: nat, format: nat, kind: seq<byte>, short: bool, id: Option<seq<byte>>, payload: seq<byte>)

  predicate Printable(r: Record) {
    && r.bounds < 4 && r.format < 8 && |r.kind| < 256
    && (r.id.Some? ==> |r.id.value| < 256)
    && |r.payload| < if r.short then 256 else 0x1_0000_0000
  }

  predicate IsText(r: Record) {
    r.format == 1 && r.kind == TEXT_TYPE
  }

  /** What the parser makes of a whole record. */
  function Verdict(r: Record): Result<seq<byte>, NdefError> {
    if r.format != 1 then Err(NotWellKnown)
    else if r.kind != TEXT_TYPE then Err(NotTextRecord)
    else Ok(r.payload)
  }

  function Flags(r: Record): byte
    requires Printable(r)
  {
    r.bounds * 64 + (if r.short then 16 else 0) + (if r.id.Some? then 8 else 0) + r.format
  }

  function Bytes4(n: nat): (b: seq<byte>)
    requires n < 0x1_0000_0000
    ensures |b| == 4 && BigEndian(b) == n
  {
    var n2 := n / 256;
    var n1 := n2 / 256;
    [n1 / 256, n1 % 256, n2 % 256, n % 256]
  }

  function LengthBytes(r: Record): seq<byte>
    requires Printable(r)
  {
    if r.short then [|r.payload|] else Bytes4(|r.payload|)
  }

  function Head(r: Record): seq<byte>
    requires Printable(r)
  {
    [Flags(r), |r.kind|] + LengthBytes(r) + if r.id.Some? then [|r.id.value|] else []
  }

  function IdBytes(r: Record): seq<byte> {
    if r.id.Some? then r.id.value else []
  }

  function Print(r: Record): seq<byte>
    requires Printable(r)
  {
    Head(r) + r.kind + IdBytes(r) + r.payload
  }

  lemma {:induction false} FlagsRead(r: Record)
    requires Printable(r)
    ensures !IsChunked(Flags(r)) && (IsShort(Flags(r)) <==> r.short) && (HasId(Flags(r)) <==> r.id.Some?)
    ensures TypeNameFormat(Flags(r)) == r.format
  {
  }

  lemma {:induction false} Middle(a: seq<byte>, b: seq<byte>, c: seq<byte>)
    ensures (a + b + c)[|a|..|a| + |b|] == b
  {
  }

  lemma {:induction false} PrintOffsets(r: Record, rest: seq<byte>)
    requires Printable(r)
    ensures var data := Print(r) + rest;
            && |data| > 1 && |data| >= TypeAt(data) == |Head(r)|
            && IdAt(data) == |Head(r)| + |r.kind|
            && PayloadAt(data) == |Head(r)| + |r.kind| + |IdBytes(r)|
            && RecordEnd(data) == |Print(r)|
  {
    FlagsRead(r);
    var data := Print(r) + rest;
    assert data[0] == Flags(r) && data[1] == |r.kind|;
    if r.short {
      assert data[2] == |r.payload|;
    } else {
      assert data[2..6] == Bytes4(|r.payload|);
    }
  }

  lemma {:induction false} PrintParts(r: Record, rest: seq<byte>)
    requires Printable(r)
    ensures var data := Print(r) + rest;
            var at, end := |Head(r)|, |Head(r)| + |r.kind|;
            && data[0] == Flags(r) && data[at..end] == r.kind
            && data[end + |IdBytes(r)|..|Print(r)|] == r.payload
  {
    var data := Print(r) + rest;
    assert data[|Head(r)|..|Head(r)| + |r.kind|] == r.kind by {
      assert data == Head(r) + r.kind + (IdBytes(r) + r.payload + rest);
      Middle(Head(r), r.kind, IdBytes(r) + r.payload + rest);
    }
    Middle(Head(r) + r.kind + IdBytes(r), r.payload, rest);
  }

  /** Parsing undoes printing, whatever follows the record. */
  lemma {:induction false} ParsePrint(r: Record, rest: seq<byte>)
    requires Printable(r)
    ensures Parse(Print(r) + rest) == Verdict(r)
  {
    FlagsRead(r);
    PrintOffsets(r, rest);
    PrintParts(r, rest);
  }

  /** The parser has reached a decision about a whole record. */
  predicate Decided(r: Result<seq<byte>, NdefError>) {
    r.Ok? || r.error.NotWellKnown? || r.error.NotTextRecord?
  }

  /** The record that an input the parser decides about starts with. */
  function RecordOf(data: seq<byte>): (r: Record)
    requires Decided(Parse(data))
    ensures Printable(r) && Verdict(r) == Parse(data)
  {
    Record(
      data[0] / 64,
      TypeNameFormat(data[0]),
      data[TypeAt(data)..IdAt(data)],
      IsShort(data[0]),
      if HasId(data[0]) then Some(data[IdAt(data)..PayloadAt(data)]) else None,
      data[PayloadAt(data)..RecordEnd(data)])
  }

  lemma {:induction false} Bytes4BigEndian(b: seq<byte>)
    requires |b| == 4
    ensures Bytes4(BigEndian(b)) == b
  {
    var n1 := b[0] as int * 256 + b[1];
    var n2 := n1 * 256 + b[2];
    assert BigEndian(b) / 256 == n2 && n2 / 256 == n1 && n1 / 256 == b[0];
  }

  lemma {:induction false} FlagBits(f: byte)
    ensures f == f / 64 * 64 + (if IsChunked(f) then 32 else 0) + (if IsShort(f) then 16 else 0)
                 + (if HasId(f) then 8 else 0) + TypeNameFormat(f)
  {
    assert f / 8 == f / 16 * 2 + f / 8 % 2 && f / 16 == f / 32 * 2 + f / 16 % 2 && f / 32 == f / 64 * 2 + f / 32 % 2;
  }

  lemma {:induction false} FlagsOf(data: seq<byte>)
    requires Decided(Parse(data))
    ensures Flags(RecordOf(data)) == data[0]
  {
    FlagBits(data[0]);
  }

  lemma {:induction false} HeadOf(data: seq<byte>)
    requires Decided(Parse(data))
    ensures TypeAt(data) <= |data| && Head(RecordOf(data)) == data[..TypeAt(data)]
  {
    var r := RecordOf(data);
    FlagsOf(data);
    if r.short {
      assert LengthBytes(r) == [data[2]];
    } else {
      Bytes4BigEndian(data[2..6]);
      assert LengthBytes(r) == data[2..6];
    }
  }

  lemma {:induction false} Slices(data: seq<byte>, a: nat, b: nat, c: nat, d: nat)
    requires a <= b <= c <= d <= |data|
    ensures data == data[..a] + data[a..b] + data[b..c] + data[c..d] + data[d..]
  {
  }

  /** Printing undoes parsing: an input the parser decides about is the printed record and a rest. */
  lemma {:induction false} PrintParse(data: seq<byte>)
    requires Decided(Parse(data))
    ensures RecordEnd(data) <= |data|
    ensures data == Print(RecordOf(data)) + data[RecordEnd(data)..]
  {
    HeadOf(data);
    assert IdBytes(RecordOf(data)) == data[IdAt(data)..PayloadAt(data)];
    Slices(data, TypeAt(data), IdAt(data), PayloadAt(data), RecordEnd(data));
  }

  /** Some printed record with this verdict starts the input. */
  ghost predicate StartsWithRecord(data: seq<byte>, verdict: Result<seq<byte>, NdefError>) {
    exists r :: Printable(r) && Verdict(r) == verdict && Print(r) <= data
  }

  /**
    The parser reaches a verdict exactly on the inputs that start with a printed
    record of that verdict: the payload of a text record, or which check it fails.
   */
  lemma {:induction false} ParseIsExact(data: seq<byte>, verdict: Result<seq<byte>, NdefError>)
    requires Decided(verdict)
    ensures Parse(data) == verdict <==> StartsWithRecord(data, verdict)
  {
    if Parse(data) == verdict {
      PrintParse(data);
      assert Print(RecordOf(data)) <= data;
    }
    if StartsWithRecord(data, verdict) {
      var r :| Printable(r) && Verdict(r) == verdict && Print(r) <= data;
      assert data == Print(r) + data[|Print(r)|..];
      ParsePrint(r, data[|Print(r)|..]);
    }
  }

  /** A text payload; `high` holds the encoding and the reserved bit, which the reader ignores. */
  function TextPayload(high: nat, language: seq<byte>, text: seq<byte>): seq<byte>
    requires high < 4 && |language| < 64
  {
    [high * 64 + |language|] + language + text
  }

  /** A text is read from exactly its own payloads, or as nothing from an empty one. */
  lemma {:induction false} TextIsExact(utf8: seq<byte> -> bool, payload: seq<byte>, text: seq<byte>)
    ensures Text(utf8, payload) == Ok(text) <==>
              || (payload == [] && text == [])
              || (utf8(text) && exists high: nat, language: seq<byte> ::
                    high < 4 && |language| < 64 && payload == TextPayload(high, language, text))
  {
    if Text(utf8, payload) == Ok(text) && payload != [] {
      var code := payload[0] % 64;
      var high, language := payload[0] / 64, payload[1..code + 1];
      assert payload == TextPayload(high, language, text);
    }
    forall high: nat, language: seq<byte> | high < 4 && |language| < 64 && payload == TextPayload(high, language, text)
      ensures payload[0] % 64 == |language| && payload[|language| + 1..] == text
    {
    }
  }

  /** A text printed into a record of either length form comes back, whatever follows. */
  lemma {:induction false} TextRoundTrip(utf8: seq<byte> -> bool, r: Record, high: nat, language: seq<byte>,
          text: seq<byte>, rest: seq<byte>)
    requires high < 4 && |language| < 64 && utf8(text)
    requires Printable(r) && IsText(r) && r.payload == TextPayload(high, language, text)
    ensures Parse(Print(r) + rest).Ok?
    ensures Text(utf8, Parse(Print(r) + rest).value) == Ok(text)
  {
    ParsePrint(r, rest);
    TextIsExact(utf8, r.payload, text);
  }

  // ------------------------------------------------------------------
  // What is wrong with an input.

  /** The part of a printed record that its byte number `n` belongs to. */
  function PartAt(r: Record, n: nat): string
    requires Printable(r) && n < |Print(r)|
  {
    var head := |Head(r)|;
    if n == 0 then "flags"
    else if n == 1 then "type length"
    else if n < 2 + |LengthBytes(r)| then "payload length"
    else if n < head then "ID length"
    else if n < head + |r.kind| then "type"
    else if n < head + |r.kind| + |IdBytes(r)| then "ID"
    else "payload"
  }

  /** The input is a record cut short inside this part. */
  ghost predicate CutInside(r: Record, data: seq<byte>, part: string) {
    Printable(r) && data < Print(r) && PartAt(r, |data|) == part
  }

  lemma {:induction false} CutFlags(r: Record, data: seq<byte>)
    requires Printable(r) && data < Print(r) && |data| > 0
    ensures data[0] == Flags(r) && !IsChunked(data[0]) && (IsShort(data[0]) <==> r.short)
    ensures (HasId(data[0]) <==> r.id.Some?) && TypeAt(data) == |Head(r)| && IdLengthAt(data) == 2 + |LengthBytes(r)|
  {
    FlagsRead(r);
    assert Print(r)[0] == Flags(r);
  }

  lemma {:induction false} CutOffsets(r: Record, data: seq<byte>)
    requires Printable(r) && data < Print(r) && |data| >= |Head(r)|
    ensures IdAt(data) == |Head(r)| + |r.kind|
    ensures PayloadAt(data) == |Head(r)| + |r.kind| + |IdBytes(r)| && RecordEnd(data) == |Print(r)|
  {
    var rest := Print(r)[|data|..];
    assert data + rest == Print(r) == Print(r) + [];
    CutFlags(r, data);
    PrintOffsets(r, []);
    OffsetsStable(data, rest);
  }

  /** A record cut short is reported as such, with the part it is cut in. */
  lemma {:induction false} CutShort(r: Record, data: seq<byte>)
    requires Printable(r) && data < Print(r)
    ensures Parse(data) == Err(Truncated(PartAt(r, |data|)))
  {
    if |data| > 0 {
      CutFlags(r, data);
      if |data| >= |Head(r)| {
        CutOffsets(r, data);
      }
    }
  }

  /** Enough zero bytes make a record of a truncated input. */
  lemma {:induction false} ZerosDecide(data: seq<byte>)
    requires Parse(data).Err? && Parse(data).error.Truncated?
    ensures Decided(Parse(data + Zeros(0x1_0000_0000 + 1024)))
  {
    var zeros := Zeros(0x1_0000_0000 + 1024);
    var all := data + zeros;
    TruncationIsCurable(data);
    if |data| > 0 {
      assert all[0] == data[0];
    } else {
      assert all[0] == zeros[0];
    }
  }

  /** A truncated input contains no whole record. */
  lemma {:induction false} TruncatedIsShort(r: Record, data: seq<byte>)
    requires Parse(data).Err? && Parse(data).error.Truncated? && Printable(r)
    ensures !(Print(r) <= data)
  {
    if Print(r) <= data {
      var rest := data[|Print(r)|..];
      assert Print(r) + rest == data;
      ParsePrint(r, rest);
    }
  }

  /** An input that is reported as truncated is a record cut short. */
  lemma {:induction false} TruncatedIsCut(data: seq<byte>) returns (r: Record)
    requires Parse(data).Err? && Parse(data).error.Truncated?
    ensures CutInside(r, data, Parse(data).error.part)
  {
    var all := data + Zeros(0x1_0000_0000 + 1024);
    ZerosDecide(data);
    PrintParse(all);
    r := RecordOf(all);
    TruncatedIsShort(r, data);
    PrefixesNest(data, Print(r), all);
    CutShort(r, data);
  }

  /** Of two prefixes of a sequence one is a prefix of the other. */
  lemma {:induction false} PrefixesNest(a: seq<byte>, b: seq<byte>, all: seq<byte>)
    requires a <= all && b <= all && !(b <= a)
    ensures a < b
  {
  }

  /**
    An input is reported as chunked exactly if its first byte has the chunk flag,
    and as truncated in a part exactly if it is a record cut short inside that
    part; every other input is decided.
   */
  lemma {:induction false} ParseErrorsAreExact(data: seq<byte>, part: string)
    ensures Parse(data) == Err(Chunked) <==> data != [] && IsChunked(data[0])
    ensures Parse(data) == Err(Truncated(part)) <==> exists r :: CutInside(r, data, part)
    ensures Decided(Parse(data)) || Parse(data).error.Chunked? || Parse(data).error.Truncated?
  {
    if Parse(data) == Err(Truncated(part)) {
      var r := TruncatedIsCut(data);
    }
    if exists r :: CutInside(r, data, part) {
      var r :| CutInside(r, data, part);
      CutShort(r, data);
    }
  }

  /** The payload is a status byte, a language code of the length it says, and these bytes. */
  ghost predicate Carries(payload: seq<byte>, bytes: seq<byte>) {
    exists high: nat, language: seq<byte> ::
      high < 4 && |language| < 64 && payload == TextPayload(high, language, bytes)
  }

  lemma {:induction false} CarriesIs(payload: seq<byte>, bytes: seq<byte>)
    ensures Carries(payload, bytes) <==> HoldsLanguage(payload) && bytes == payload[payload[0] % 64 + 1..]
  {
    if HoldsLanguage(payload) && bytes == payload[payload[0] % 64 + 1..] {
      var high, language := payload[0] / 64, payload[1..payload[0] % 64 + 1];
      assert payload == TextPayload(high, language, bytes);
    }
    if Carries(payload, bytes) {
      var high: nat, language: seq<byte> :|
        high < 4 && |language| < 64 && payload == TextPayload(high, language, bytes);
      assert payload[0] % 64 == |language|;
    }
  }

  /**
    A payload is reported as not being UTF-8 exactly if the bytes it carries are
    not, and as truncated exactly if it is not empty and carries none.
   */
  lemma {:induction false} TextErrorsAreExact(utf8: seq<byte> -> bool, payload: seq<byte>)
    ensures Text(utf8, payload) == Err(InvalidUtf8) <==> exists bytes :: Carries(payload, bytes) && !utf8(bytes)
    ensures Text(utf8, payload) == Err(Truncated("text payload")) <==>
            payload != [] && forall bytes :: !Carries(payload, bytes)
    ensures Text(utf8, payload).Err? ==>
            Text(utf8, payload).error == InvalidUtf8 || Text(utf8, payload).error == Truncated("text payload")
  {
    forall bytes
      ensures Carries(payload, bytes) <==> HoldsLanguage(payload) && bytes == payload[payload[0] % 64 + 1..]
    {
      CarriesIs(payload, bytes);
    }
    if HoldsLanguage(payload) {
      assert Carries(payload, payload[payload[0] % 64 + 1..]);
    }
  }

  // ------------------------------------------------------------------
  // The encoding a payload declares.

  /** The text read as UTF-16, in the bytes of its UTF-8 form, if it can be. */
  type Utf16 = seq<byte> -> Option<seq<byte>>

  /** The payload is long enough for the language code it announces. */
  predicate HoldsLanguage(payload: seq<byte>) {
    payload != [] && |payload| >= payload[0] % 64 + 1
  }

  /**
    The highest bit of the first byte declares UTF-16 (section 3.2.1 of the NFC
    Forum Text Record Type Definition 1.0).
   */
  predicate DeclaresUtf16(payload: seq<byte>) {
    payload != [] && payload[0] >= 128
  }

  /** The text by the declared encoding. */
  function DeclaredText(utf8: seq<byte> -> bool, utf16: Utf16, payload: seq<byte>): Result<seq<byte>, NdefError> {
    if !HoldsLanguage(payload) || !DeclaresUtf16(payload) then Text(utf8, payload)
    else
      match utf16(payload[payload[0] % 64 + 1..])
      case Some(text) => Ok(text)
      case None => Err(InvalidUtf8)
  }

  /**
    The code's text is the declared one, whatever UTF-16 makes of the bytes, if
    and only if the payload is empty, declares UTF-8, or is too short for its
    language code.
   */
  lemma {:induction false} EncodingIsExact(utf8: seq<byte> -> bool, payload: seq<byte>)
    ensures (forall utf16 :: Text(utf8, payload) == DeclaredText(utf8, utf16, payload)) <==>
            !HoldsLanguage(payload) || !DeclaresUtf16(payload)
  {
    if HoldsLanguage(payload) && DeclaresUtf16(payload) {
      var other: Utf16 := bytes => if Text(utf8, payload).Ok? then None else Some([]);
      assert Text(utf8, payload) != DeclaredText(utf8, other, payload);
    }
  }

  /** The letter a in big-endian UTF-16, behind a status byte that says so and the language code en. */
  lemma {:induction false} Utf16Example(utf8: seq<byte> -> bool, utf16: Utf16)
    requires utf8([0x00, 0x61]) && utf16([0x00, 0x61]) == Some([0x61])
    ensures var payload: seq<byte> := [0x82, 0x65, 0x6e, 0x00, 0x61];
            Text(utf8, payload) == Ok([0x00, 0x61]) && DeclaredText(utf8, utf16, payload) == Ok([0x61])
  {
    var payload: seq<byte> := [0x82, 0x65, 0x6e, 0x00, 0x61];
    assert payload[3..] == [0x00, 0x61];
  }
}
