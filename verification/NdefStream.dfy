/**
  The incremental parser that extracts an NDEF message from the TLV blocks of a
  tag (section 2.3 of the NFC Forum Type 2 Tag Operation specification 1.1), fed
  chunk by chunk, against a parse of the whole stream at once.
 */
module NdefStream {
  import opened Basics

  const NDEF_TLV: byte := 0x03
  const LONG_LENGTH: byte := 0xff

  /** The truncating cast from `usize` to `i32`. */
  function AsI32(n: nat): (i: int)
    ensures -0x8000_0000 <= i < 0x8000_0000 && (n - i) % 0x1_0000_0000 == 0
  {
    var m := n % 0x1_0000_0000;
    if m < 0x8000_0000 then m else m - 0x1_0000_0000
  }

  datatype State = Init | Length | Value

  datatype Parser = Parser(state: State, length: int, data: seq<byte>)

  function NewParser(): Parser {
    Parser(Init, -1, [])
  }

  predicate Done(p: Parser) {
    AsI32(|p.data|) == p.length
  }

  predicate Started(p: Parser) {
    !p.state.Init?
  }

  function Consume(p: Parser, b: byte): Parser {
    match p.state
    case Init => if b == NDEF_TLV then p.(state := Length) else p
    case Length =>
      if p.length == -1 then
        if b == LONG_LENGTH then p.(length := -2) else p.(length := b, state := Value)
      else if p.length == -2 then p.(length := b)
      else p.(length := p.length * 256 + b, state := Value)
    case Value => p.(data := p.data + [b])
  }

  /** Consumes a chunk, leaving the rest of it alone once a byte has completed the message. */
  function Feed(p: Parser, chunk: seq<byte>): Parser
    decreases chunk
  {
    if chunk == [] then p
    else
      var p' := Consume(p, chunk[0]);
      if p.state.Value? && Done(p') then p' else Feed(p', chunk[1..])
  }

  /** Feeds chunks until the parser reports that it is done. */
  function FeedUntilDone(p: Parser, chunks: seq<seq<byte>>): Parser
    decreases chunks
  {
    if chunks == [] then p
    else
      var p' := Feed(p, chunks[0]);
      if Done(p') then p' else FeedUntilDone(p', chunks[1..])
  }

  class NdefMessageParser {
    var state: State
    var length: int
    var data: seq<byte>

    ghost function Contents(): Parser
      reads this
    {
      Parser(state, length, data)
    }

    constructor ()
      ensures Contents() == NewParser()
    {
      state, length, data := Init, -1, [];
    }

    method AddData(chunk: seq<byte>)
      modifies this
      ensures Contents() == old(Feed(Contents(), chunk))
    {
      var i := 0;
      while i < |chunk|
        invariant 0 <= i <= |chunk|
        invariant Feed(Contents(), chunk[i..]) == old(Feed(Contents(), chunk))
      {
        var b := chunk[i];
        assert chunk[i..][1..] == chunk[i + 1..];
        match state {
          case Init =>
            if b == NDEF_TLV {
              state := Length;
            }
          case Length =>
            if length == -1 {
              if b == LONG_LENGTH {
                length := -2;
              } else {
                length := b;
                state := Value;
              }
            } else if length == -2 {
              length := b;
            } else {
              length := length * 256 + b;
              state := Value;
            }
          case Value =>
            data := data + [b];
            if AsI32(|data|) == length {
              return;
            }
        }
        i := i + 1;
      }
    }

    method IsDone() returns (done: bool)
      ensures done == Done(Contents())
    {
      done := AsI32(|data|) == length;
    }

    method HasStarted() returns (started: bool)
      ensures started == Started(Contents())
    {
      started := state != Init;
    }
  }

  // ------------------------------------------------------------------
  // The stream parsed at once.

  /** Position of the first NDEF marker byte, or the length of the stream if there is none. */
  function Marker(s: seq<byte>): (m: nat)
    ensures m <= |s|
    ensures m < |s| ==> s[m] == NDEF_TLV
  {
    if s == [] || s[0] == NDEF_TLV then 0 else 1 + Marker(s[1..])
  }

  predicate IsLong(s: seq<byte>) {
    Marker(s) + 1 < |s| && s[Marker(s) + 1] == LONG_LENGTH
  }

  /** Where the message bytes begin, once the whole length field is there. */
  function BodyStart(s: seq<byte>): nat {
    Marker(s) + if IsLong(s) then 4 else 2
  }

  function BodyLength(s: seq<byte>): nat
    requires BodyStart(s) <= |s|
  {
    var m := Marker(s);
    if IsLong(s) then s[m + 2] as int * 256 + s[m + 3] else s[m + 1]
  }

  /** The message: the marker, a length of one byte or of two after 0xff, then that many bytes. */
  function Extract(s: seq<byte>): Option<seq<byte>> {
    var at := BodyStart(s);
    if at <= |s| && at + BodyLength(s) <= |s| then Some(s[at..at + BodyLength(s)]) else None
  }

  function Flatten(chunks: seq<seq<byte>>): seq<byte> {
    if chunks == [] then [] else chunks[0] + Flatten(chunks[1..])
  }

  /** Some chunk ends exactly at position `at` of the stream. */
  predicate CutAt(chunks: seq<seq<byte>>, at: int) {
    chunks != [] && (|chunks[0]| == at || CutAt(chunks[1..], at - |chunks[0]|))
  }

  /** The length field is the long one and its high byte, at `Marker(s) + 2`, is zero. */
  predicate ZeroHigh(s: seq<byte>) {
    IsLong(s) && Marker(s) + 2 < |s| && s[Marker(s) + 2] == 0
  }

  lemma {:induction false} MarkerIsFirst(s: seq<byte>)
    ensures forall i :: 0 <= i < Marker(s) ==> s[i] != NDEF_TLV
  {
    if s != [] && s[0] != NDEF_TLV {
      MarkerIsFirst(s[1..]);
    }
  }

  lemma {:induction false} MarkerIs(s: seq<byte>, m: nat)
    requires m <= |s| && forall i :: 0 <= i < m ==> s[i] != NDEF_TLV
    requires m < |s| ==> s[m] == NDEF_TLV
    ensures Marker(s) == m
  {
    MarkerIsFirst(s);
  }

  lemma {:induction false} MarkerPrefix(t: seq<byte>, x: seq<byte>)
    ensures Marker(t) < |t| ==> Marker(t + x) == Marker(t)
    ensures Marker(t + x) < |t| ==> Marker(t) == Marker(t + x)
    ensures Marker(t) <= Marker(t + x)
  {
    MarkerIsFirst(t);
    if Marker(t) < |t| {
      MarkerIs(t + x, Marker(t));
    }
  }

  /** Once a message is complete, more data does not change it. */
  lemma {:induction false} ExtractPrefix(t: seq<byte>, x: seq<byte>)
    requires Extract(t).Some?
    ensures Extract(t + x) == Extract(t)
  {
    MarkerPrefix(t, x);
    var at, n := BodyStart(t), BodyLength(t);
    assert BodyStart(t + x) == at && BodyLength(t + x) == n;
    SlicePrefix(t, x, at, at + n);
  }

  lemma {:induction false} SlicePrefix(t: seq<byte>, x: seq<byte>, a: nat, b: nat)
    requires a <= b <= |t|
    ensures (t + x)[a..b] == t[a..b]
  {
  }

  /** The parser after consuming `t` without an early return. */
  function Describe(t: seq<byte>): Parser {
    if t == [] then NewParser() else Consume(Describe(t[..|t| - 1]), t[|t| - 1])
  }

  /** What that parser holds, read off the stream. */
  function Holding(t: seq<byte>): Parser {
    var m := Marker(t);
    if m == |t| then NewParser()
    else if m + 1 == |t| then Parser(Length, -1, [])
    else if t[m + 1] != LONG_LENGTH then Parser(Value, t[m + 1], t[m + 2..])
    else if m + 2 == |t| then Parser(Length, -2, [])
    else if m + 3 == |t| then Parser(Length, t[m + 2], [])
    else Parser(Value, t[m + 2] as int * 256 + t[m + 3], t[m + 4..])
  }

  lemma {:induction false} DescribeStep(t: seq<byte>, b: byte)
    ensures Consume(Describe(t), b) == Describe(t + [b])
  {
    assert (t + [b])[..|t|] == t;
  }

  lemma {:induction false} DescribeIs(t: seq<byte>)
    ensures Describe(t) == Holding(t)
  {
    if t != [] {
      var front, b := t[..|t| - 1], t[|t| - 1];
      assert t == front + [b];
      DescribeIs(front);
      HoldingStep(front, b);
    }
  }

  lemma {:induction false} HoldingStep(t: seq<byte>, b: byte)
    ensures Consume(Holding(t), b) == Holding(t + [b])
  {
    MarkerPrefix(t, [b]);
    var m := Marker(t);
    MarkerIsFirst(t);
    if m == |t| {
      MarkerIs(t + [b], if b == NDEF_TLV then m else m + 1);
    }
  }

  /** A parser whose message is not complete is done only between the two bytes of a length whose high byte is zero. */
  lemma {:induction false} DoneMeans(t: seq<byte>)
    requires Extract(t).None?
    ensures Done(Describe(t)) <==> ZeroHigh(t) && |t| == Marker(t) + 3
    ensures Done(Describe(t)) ==> Describe(t).state.Length?
  {
    DescribeIs(t);
    if BodyStart(t) <= |t| {
      ValueNotDone(t);
    } else {
      HeaderDone(t);
    }
  }

  lemma {:induction false} ValueNotDone(t: seq<byte>)
    requires Extract(t).None? && BodyStart(t) <= |t|
    ensures !Done(Holding(t)) && Holding(t).state.Value?
    ensures |t| != Marker(t) + 3 || !ZeroHigh(t)
  {
    var p := Holding(t);
    assert p.length == BodyLength(t) && |p.data| == |t| - BodyStart(t) < p.length < 0x1_0000;
  }

  lemma {:induction false} HeaderDone(t: seq<byte>)
    requires |t| < BodyStart(t)
    ensures Done(Holding(t)) <==> ZeroHigh(t) && |t| == Marker(t) + 3
    ensures Done(Holding(t)) ==> Holding(t).state.Length?
  {
    assert Holding(t).data == [];
  }

  /** Feeding a chunk up to, or past, the end of a message of at least one byte. */
  lemma {:induction false} FeedChunk(t: seq<byte>, chunk: seq<byte>)
    requires Extract(t).None? && Extract(t + chunk) != Some([])
    ensures Extract(t + chunk).None? ==> Feed(Describe(t), chunk) == Describe(t + chunk)
    ensures Extract(t + chunk).Some? ==>
              Feed(Describe(t), chunk) == Parser(Value, |Extract(t + chunk).value|, Extract(t + chunk).value)
    decreases chunk
  {
    if chunk == [] {
      assert t + chunk == t;
    } else {
      var t1 := t + [chunk[0]];
      assert t + chunk == t1 + chunk[1..];
      DescribeStep(t, chunk[0]);
      if Extract(t1).Some? {
        ExtractPrefix(t1, chunk[1..]);
        CompletesHere(t, chunk[0]);
      } else {
        DoneMeans(t1);
        FeedChunk(t1, chunk[1..]);
      }
    }
  }

  /** The byte that completes a non-empty message makes the parser done. */
  lemma {:induction false} CompletesHere(t: seq<byte>, b: byte)
    requires Extract(t).None? && Extract(t + [b]).Some? && Extract(t + [b]) != Some([])
    ensures Describe(t).state.Value? && BodyStart(t + [b]) <= |t|
    ensures Describe(t + [b]) == Parser(Value, |Extract(t + [b]).value|, Extract(t + [b]).value)
    ensures Done(Describe(t + [b]))
  {
    var s := t + [b];
    assert s + [] == s;
    HeaderPrefix(t, [b]);
    HeaderPrefix(s, []);
    assert s[BodyStart(s)..] == Extract(s).value;
    MessageIsShort(s);
  }

  // ------------------------------------------------------------------
  // Chunks.

  /** The parser stopped on the whole message, or there is none and it has not stopped. */
  predicate Agrees(p: Parser, s: seq<byte>) {
    match Extract(s)
    case Some(message) => Done(p) && p.data == message
    case None => !Done(p)
  }

  lemma {:induction false} ZeroHighPrefix(t: seq<byte>, x: seq<byte>)
    requires ZeroHigh(t)
    ensures ZeroHigh(t + x) && Marker(t + x) == Marker(t)
  {
    MarkerPrefix(t, x);
  }

  lemma {:induction false} MessageIsShort(s: seq<byte>)
    requires Extract(s).Some?
    ensures AsI32(|Extract(s).value|) == |Extract(s).value|
  {
  }

  /** Some chunk, the first beginning at position `from`, ends behind a zero high length byte. */
  predicate CutBehindZero(chunks: seq<seq<byte>>, s: seq<byte>, from: nat) {
    ZeroHigh(s) && CutAt(chunks, Marker(s) + 3 - from)
  }

  lemma {:induction false} CutLater(chunks: seq<seq<byte>>, s: seq<byte>, from: nat)
    requires chunks != [] && CutBehindZero(chunks[1..], s, from + |chunks[0]|)
    ensures CutBehindZero(chunks, s, from)
  {
  }

  /** Without a cut after a zero high byte, the chunking makes no difference to a non-empty message. */
  lemma {:induction false} FeedChunks(t: seq<byte>, chunks: seq<seq<byte>>, s: seq<byte>)
    requires Extract(t).None? && !Done(Describe(t))
    requires s == t + Flatten(chunks) && Extract(s) != Some([])
    requires !CutBehindZero(chunks, s, |t|)
    ensures Agrees(FeedUntilDone(Describe(t), chunks), s)
    decreases chunks
  {
    if chunks == [] {
      assert s == t;
    } else {
      var t1, rest := t + chunks[0], Flatten(chunks[1..]);
      FlattenStep(t, chunks);
      if Extract(t1).Some? {
        ExtractPrefix(t1, rest);
        MessageIsShort(t1);
        FeedChunk(t, chunks[0]);
      } else {
        FeedChunk(t, chunks[0]);
        DoneMeans(t1);
        if Done(Describe(t1)) {
          ZeroHighPrefix(t1, rest);
          assert false;
        }
        if CutBehindZero(chunks[1..], s, |t| + |chunks[0]|) {
          CutLater(chunks, s, |t|);
          assert false;
        }
        FeedChunks(t1, chunks[1..], s);
      }
    }
  }

  /** Up to the second byte of a long length nothing is complete; behind a zero first one the parser is done. */
  lemma {:induction false} ShortOfBody(t: seq<byte>, s: seq<byte>)
    requires t <= s && ZeroHigh(s) && |t| <= Marker(s) + 3
    ensures Extract(t).None?
    ensures |t| < Marker(s) + 3 ==> !Done(Describe(t))
    ensures |t| == Marker(s) + 3 ==> Describe(t) == Parser(Length, 0, [])
  {
    assert s == t + s[|t|..];
    MarkerPrefix(t, s[|t|..]);
    DescribeIs(t);
    DoneMeans(t);
  }

  lemma {:induction false} FeedToHighByte(t: seq<byte>, chunk: seq<byte>, s: seq<byte>)
    requires t + chunk <= s && ZeroHigh(s) && |t + chunk| <= Marker(s) + 3
    ensures Feed(Describe(t), chunk) == Describe(t + chunk)
  {
    assert t <= t + chunk <= s;
    ShortOfBody(t, s);
    ShortOfBody(t + chunk, s);
    FeedChunk(t, chunk);
  }

  lemma {:induction false} FlattenStep(t: seq<byte>, chunks: seq<seq<byte>>)
    requires chunks != []
    ensures t + Flatten(chunks) == (t + chunks[0]) + Flatten(chunks[1..])
    ensures t + chunks[0] <= t + Flatten(chunks)
  {
  }

  /** A cut right after a zero high byte stops the parser there, with no data. */
  lemma {:induction false} FeedStopsEarly(t: seq<byte>, chunks: seq<seq<byte>>, s: seq<byte>)
    requires s == t + Flatten(chunks) && ZeroHigh(s)
    requires |t| < Marker(s) + 3 && CutAt(chunks, Marker(s) + 3 - |t|)
    ensures FeedUntilDone(Describe(t), chunks) == Parser(Length, 0, [])
    decreases chunks
  {
    var t1 := t + chunks[0];
    FlattenStep(t, chunks);
    if |t1| > Marker(s) + 3 {
      NoCutInside(chunks, Marker(s) + 3 - |t|);
    } else {
      FeedToHighByte(t, chunks[0], s);
      ShortOfBody(t1, s);
      if |t1| < Marker(s) + 3 {
        FeedStopsEarly(t1, chunks[1..], s);
      }
    }
  }

  lemma {:induction false} CutsAhead(chunks: seq<seq<byte>>, at: int)
    requires CutAt(chunks, at)
    ensures at >= 0
  {
    if |chunks[0]| != at {
      CutsAhead(chunks[1..], at - |chunks[0]|);
    }
  }

  lemma {:induction false} NoCutInside(chunks: seq<seq<byte>>, at: int)
    requires chunks != [] && at < |chunks[0]|
    ensures !CutAt(chunks, at)
  {
    if CutAt(chunks[1..], at - |chunks[0]|) {
      CutsAhead(chunks[1..], at - |chunks[0]|);
    }
  }

  // ------------------------------------------------------------------
  // The empty message.

  /** Once the header of a stream is in, it is the header of the prefix too. */
  lemma {:induction false} HeaderPrefix(t: seq<byte>, x: seq<byte>)
    requires BodyStart(t + x) <= |t|
    ensures Marker(t) == Marker(t + x) && BodyStart(t) == BodyStart(t + x) && BodyLength(t) == BodyLength(t + x)
    ensures Describe(t) == Parser(Value, BodyLength(t), t[BodyStart(t)..])
  {
    DescribeIs(t);
    MarkerPrefix(t, x);
  }

  lemma {:induction false} HeaderMissing(t: seq<byte>, x: seq<byte>)
    requires |t| < BodyStart(t + x) <= |t + x|
    ensures |t| < BodyStart(t) && Extract(t).None? && !Describe(t).state.Value?
    ensures ZeroHigh(t) && |t| == Marker(t) + 3 <==> ZeroHigh(t + x) && |t| == Marker(t + x) + 3
    ensures Describe(t).data == []
  {
    DescribeIs(t);
    MarkerPrefix(t, x);
  }

  /** When the parser is done on the way to the end of the header of an empty message. */
  lemma {:induction false} EmptyDone(t: seq<byte>, x: seq<byte>)
    requires Extract(t + x) == Some([]) && |t| <= BodyStart(t + x)
    ensures Done(Describe(t)) <==> |t| == BodyStart(t + x) || (IsLong(t + x) && |t| == Marker(t + x) + 3)
    ensures Done(Describe(t)) ==> Describe(t).data == []
    ensures Describe(t).state.Value? <==> |t| == BodyStart(t + x)
  {
    assert BodyLength(t + x) == 0;
    if |t| < BodyStart(t + x) {
      HeaderMissing(t, x);
      DoneMeans(t);
    } else {
      HeaderPrefix(t, x);
    }
  }

  lemma {:induction false} FeedKeepsData(p: Parser, chunk: seq<byte>)
    requires p.state.Value?
    ensures var p' := Feed(p, chunk);
            p'.state.Value? && p'.length == p.length && |p.data| <= |p'.data| <= |p.data| + |chunk|
    decreases chunk
  {
    if chunk != [] {
      FeedKeepsData(Consume(p, chunk[0]), chunk[1..]);
    }
  }

  lemma {:induction false} ChunksKeepData(p: Parser, chunks: seq<seq<byte>>)
    requires p.state.Value? && p.data != []
    ensures FeedUntilDone(p, chunks).data != []
    decreases chunks
  {
    if chunks != [] {
      FeedKeepsData(p, chunks[0]);
      ChunksKeepData(Feed(p, chunks[0]), chunks[1..]);
    }
  }

  /** Feeding a chunk up to the end of the header of an empty message, or past it. */
  lemma {:induction false} FeedEmpty(t: seq<byte>, chunk: seq<byte>, x: seq<byte>)
    requires Extract(t + chunk + x) == Some([]) && |t| <= BodyStart(t + chunk + x)
    ensures |t + chunk| <= BodyStart(t + chunk + x) ==> Feed(Describe(t), chunk) == Describe(t + chunk)
    ensures |t + chunk| > BodyStart(t + chunk + x) ==>
              var p := Feed(Describe(t), chunk);
              p.state.Value? && p.length == 0 && 0 < |p.data| <= |chunk|
    decreases chunk
  {
    if chunk == [] {
      assert t + chunk == t;
    } else {
      var t1 := t + [chunk[0]];
      assert t + chunk == t1 + chunk[1..];
      assert t + chunk + x == t + (chunk + x) == t1 + (chunk[1..] + x);
      DescribeStep(t, chunk[0]);
      EmptyDone(t, chunk + x);
      if |t| < BodyStart(t + chunk + x) {
        FeedEmpty(t1, chunk[1..], x);
      } else {
        HeaderPrefix(t, chunk + x);
        FeedKeepsData(Describe(t1), chunk[1..]);
      }
    }
  }

  /** Some chunk ends right behind the header of an empty message, or inside a long header behind its zero high byte. */
  predicate StopsOnEmpty(chunks: seq<seq<byte>>, s: seq<byte>, from: nat) {
    CutAt(chunks, BodyStart(s) - from) || (IsLong(s) && CutAt(chunks, Marker(s) + 3 - from))
  }

  lemma {:induction false} FeedPastEmpty(t: seq<byte>, chunks: seq<seq<byte>>, s: seq<byte>)
    requires chunks != [] && s == t + Flatten(chunks) && Extract(s) == Some([])
    requires |t| < BodyStart(s) < |t| + |chunks[0]|
    ensures FeedUntilDone(Describe(t), chunks).data != []
    ensures !StopsOnEmpty(chunks, s, |t|)
  {
    FlattenStep(t, chunks);
    FeedEmpty(t, chunks[0], Flatten(chunks[1..]));
    ChunksKeepData(Feed(Describe(t), chunks[0]), chunks[1..]);
    NoCutInside(chunks, BodyStart(s) - |t|);
    if IsLong(s) {
      NoCutInside(chunks, Marker(s) + 3 - |t|);
    }
  }

  lemma {:induction false} EmptyStep(t: seq<byte>, chunk: seq<byte>, s: seq<byte>)
    requires t + chunk <= s && Extract(s) == Some([]) && |t + chunk| <= BodyStart(s)
    ensures Feed(Describe(t), chunk) == Describe(t + chunk)
    ensures Done(Describe(t + chunk)) <==>
              |t + chunk| == BodyStart(s) || (IsLong(s) && |t + chunk| == Marker(s) + 3)
    ensures Done(Describe(t + chunk)) ==> Describe(t + chunk).data == []
  {
    var x := s[|t + chunk|..];
    assert s == t + chunk + x;
    FeedEmpty(t, chunk, x);
    EmptyDone(t + chunk, x);
  }

  /** One chunk up to the end of the header: it ends at a stopping place, or a later one does. */
  lemma {:induction false} StopsStep(t: seq<byte>, chunks: seq<seq<byte>>, s: seq<byte>)
    requires chunks != []
    ensures var end := |t + chunks[0]|;
            StopsOnEmpty(chunks, s, |t|) <==>
              end == BodyStart(s) || (IsLong(s) && end == Marker(s) + 3) || StopsOnEmpty(chunks[1..], s, end)
  {
    var end := |t| + |chunks[0]|;
    assert CutAt(chunks, BodyStart(s) - |t|) <==> end == BodyStart(s) || CutAt(chunks[1..], BodyStart(s) - end);
    assert CutAt(chunks, Marker(s) + 3 - |t|) <==> end == Marker(s) + 3 || CutAt(chunks[1..], Marker(s) + 3 - end);
  }

  lemma {:induction false} UntilDoneStep(p: Parser, chunks: seq<seq<byte>>)
    requires chunks != []
    ensures var p' := Feed(p, chunks[0]);
            FeedUntilDone(p, chunks) == if Done(p') then p' else FeedUntilDone(p', chunks[1..])
  {
  }

  lemma {:induction false} FeedEmptyChunks(t: seq<byte>, chunks: seq<seq<byte>>, s: seq<byte>)
    requires s == t + Flatten(chunks) && Extract(s) == Some([])
    requires |t| < BodyStart(s) && !Done(Describe(t))
    ensures Agrees(FeedUntilDone(Describe(t), chunks), s) <==> StopsOnEmpty(chunks, s, |t|)
    decreases chunks
  {
    if chunks != [] {
      var t1 := t + chunks[0];
      FlattenStep(t, chunks);
      if |t1| > BodyStart(s) {
        FeedPastEmpty(t, chunks, s);
      } else {
        EmptyStep(t, chunks[0], s);
        UntilDoneStep(Describe(t), chunks);
        StopsStep(t, chunks, s);
        if !Done(Describe(t1)) {
          FeedEmptyChunks(t1, chunks[1..], s);
        }
      }
    }
  }

  /** Where chunks have to end, or must not. */
  predicate CutsSuit(chunks: seq<seq<byte>>, s: seq<byte>) {
    if Extract(s) == Some([]) then StopsOnEmpty(chunks, s, 0)
    else !CutBehindZero(chunks, s, 0)
  }

  lemma {:induction false} EmptyFromStart(chunks: seq<seq<byte>>, s: seq<byte>)
    requires s == Flatten(chunks) && Extract(s) == Some([])
    ensures Agrees(FeedUntilDone(NewParser(), chunks), s) <==> StopsOnEmpty(chunks, s, 0)
  {
    assert s == [] + Flatten(chunks) && Describe([]) == NewParser();
    FeedEmptyChunks([], chunks, s);
  }

  lemma {:induction false} BadCutFromStart(chunks: seq<seq<byte>>, s: seq<byte>)
    requires s == Flatten(chunks) && Extract(s) != Some([]) && CutBehindZero(chunks, s, 0)
    ensures !Agrees(FeedUntilDone(NewParser(), chunks), s)
  {
    assert s == [] + Flatten(chunks) && Describe([]) == NewParser();
    FeedStopsEarly([], chunks, s);
  }

  lemma {:induction false} GoodCutsFromStart(chunks: seq<seq<byte>>, s: seq<byte>)
    requires s == Flatten(chunks) && Extract(s) != Some([]) && !CutBehindZero(chunks, s, 0)
    ensures Agrees(FeedUntilDone(NewParser(), chunks), s)
  {
    var nothing: seq<byte> := [];
    NothingYet();
    assert nothing + Flatten(chunks) == s;
    FeedChunks(nothing, chunks, s);
  }

  lemma {:induction false} NothingYet()
    ensures Describe([]) == NewParser() && Extract([]).None? && !Done(NewParser())
  {
  }

  /**
    The exact condition under which feeding a stream in chunks until the parser
    is done gives what the whole stream gives.  For a message of at least one
    byte, and for a stream without a complete message, no chunk may end behind a
    zero high length byte; for an empty message some chunk must end where the
    header does, or behind that zero byte.
   */
  lemma {:induction false} ChunkingIsExact(chunks: seq<seq<byte>>)
    ensures Agrees(FeedUntilDone(NewParser(), chunks), Flatten(chunks)) <==> CutsSuit(chunks, Flatten(chunks))
  {
    var s := Flatten(chunks);
    if Extract(s) == Some([]) {
      EmptyFromStart(chunks, s);
    } else if CutBehindZero(chunks, s, 0) {
      BadCutFromStart(chunks, s);
    } else {
      GoodCutsFromStart(chunks, s);
    }
  }

  /** The stream 03 ff 00 01 aa cut behind its third byte: the parser reports an empty message. */
  lemma {:induction false} EarlyStopExample()
    ensures var chunks: seq<seq<byte>> := [[0x03, 0xff, 0x00], [0x01, 0xaa]];
            && FeedUntilDone(NewParser(), chunks) == Parser(Length, 0, [])
            && Extract(Flatten(chunks)) == Some([0xaa])
  {
    var chunks: seq<seq<byte>> := [[0x03, 0xff, 0x00], [0x01, 0xaa]];
    assert chunks[1..] == [[0x01, 0xaa]] && chunks[1..][1..] == [];
    assert Flatten(chunks) == [0x03, 0xff, 0x00, 0x01, 0xaa];
    var s: seq<byte> := [0x03, 0xff, 0x00, 0x01, 0xaa];
    assert Marker(s) == 0 && s[4..5] == [0xaa];
    FeedStopsEarly([], chunks, s);
  }

  // ------------------------------------------------------------------
  // Feeding on.

  lemma {:induction false} WrapsAt(n: nat, more: nat)
    requires n < 0x8000_0000 && 0 < more <= 0x1_0000_0000
    ensures AsI32(n + more) == n <==> more == 0x1_0000_0000
  {
  }

  lemma {:induction false} FeedOn(message: seq<byte>, fed: seq<byte>, chunk: seq<byte>)
    requires |message| < 0x8000_0000 && |fed| < 0x1_0000_0000
    ensures var taken := chunk[..Min(|chunk|, 0x1_0000_0000 - |fed|)];
            Feed(Parser(Value, |message|, message + fed), chunk) == Parser(Value, |message|, message + (fed + taken))
    decreases chunk
  {
    var taken := chunk[..Min(|chunk|, 0x1_0000_0000 - |fed|)];
    if chunk == [] {
      assert fed + taken == fed;
    } else {
      var fed1 := fed + [chunk[0]];
      assert (message + fed) + [chunk[0]] == message + fed1;
      WrapsAt(|message|, |fed1|);
      if |fed1| == 0x1_0000_0000 {
        assert taken == [chunk[0]];
      } else {
        FeedOn(message, fed1, chunk[1..]);
        assert fed + taken == fed1 + chunk[1..][..Min(|chunk| - 1, 0x1_0000_0000 - |fed1|)];
      }
    }
  }

  /**
    A parser that holds its message takes any further byte for a part of it, and
    is done again only when the length has wrapped around, four gibibytes later.
   */
  lemma {:induction false} FeedAfterDone(message: seq<byte>, chunk: seq<byte>)
    ensures var p' := Feed(Parser(Value, |message|, message), chunk);
            && (p'.data == message <==> chunk == [])
            && (|message| < 0x8000_0000 ==>
                 && p'.data == message + chunk[..Min(|chunk|, 0x1_0000_0000)]
                 && (Done(p') <==> chunk == [] || |chunk| >= 0x1_0000_0000))
  {
    if |message| < 0x8000_0000 {
      FeedShortOn(message, chunk);
    }
    if chunk != [] {
      FeedKeepsData(Consume(Parser(Value, |message|, message), chunk[0]), chunk[1..]);
    }
  }

  lemma {:induction false} FeedShortOn(message: seq<byte>, chunk: seq<byte>)
    requires |message| < 0x8000_0000
    ensures var p' := Feed(Parser(Value, |message|, message), chunk);
            && p'.data == message + chunk[..Min(|chunk|, 0x1_0000_0000)]
            && (Done(p') <==> chunk == [] || |chunk| >= 0x1_0000_0000)
  {
    assert message + [] == message;
    FeedOn(message, [], chunk);
    var taken := chunk[..Min(|chunk|, 0x1_0000_0000)];
    assert [] + taken == taken;
    if chunk != [] {
      WrapsAt(|message|, |taken|);
    }
  }

  /** The message aa, complete, and one more byte. */
  lemma {:induction false} FedOnExample()
    ensures var p := Feed(NewParser(), [0x03, 0x01, 0xaa]);
            && Done(p) && p.data == [0xaa]
            && Feed(p, [0xbb]).data == [0xaa, 0xbb] && !Done(Feed(p, [0xbb]))
  {
    var s: seq<byte> := [0x03, 0x01, 0xaa];
    assert s[2..3] == [0xaa];
    assert [] + s == s && Describe([]) == NewParser();
    assert Extract([]).None?;
    FeedChunk([], s);
    assert Feed(NewParser(), s) == Parser(Value, 1, [0xaa]);
  }
}
