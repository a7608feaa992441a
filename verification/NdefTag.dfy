/**
  Reading a text from a tag: the loop that reads sixteen-byte quads, feeds them
  to the message parser and stops as soon as that is done.
 */
module NdefTag {
  import opened Basics
  import opened NdefStream
  import opened NdefRecord

  type Block = b: seq<byte> | |b| == 16 witness [0, 0, 0, 0, 0, 0, 0, 0, 0, 0, 0, 0, 0, 0, 0, 0]

  /** A tag in the field: the outcome of reading the four pages at a block address. */
  datatype Tag = Tag(read: byte -> Option<Block>)

  datatype ReadError =
    | CapabilityUnreadable
    | BlockUnreadable(address: byte)
    | NoMessageInFirstSector
    | MessageIncomplete
    | BadRecord(error: NdefError)

  const CAPABILITY_BLOCK: byte := 3

  function TotalQuads(capability: byte): (quads: nat)
    ensures quads <= 63
  {
    var totalBytes := capability as int * 8;
    var totalPages := totalBytes / 4;
    Min(totalPages / 4, 63)
  }

  function Finish(utf8: seq<byte> -> bool, p: Parser): Result<seq<byte>, ReadError> {
    if !Done(p) then Err(MessageIncomplete)
    else
      match Parse(p.data)
      case Err(error) => Err(BadRecord(error))
      case Ok(payload) =>
        match Text(utf8, payload)
        case Err(error) => Err(BadRecord(error))
        case Ok(text) => Ok(text)
  }

  /** The loop from quad `q` on. */
  function ReadFrom(utf8: seq<byte> -> bool, tag: Tag, p: Parser, q: nat, total: nat): Result<seq<byte>, ReadError>
    requires 1 <= q <= total + 1 && total <= 63
    decreases total + 1 - q
  {
    if q > total then Finish(utf8, p)
    else
      match tag.read(4 * q)
      case None => Err(BlockUnreadable(4 * q))
      case Some(block) =>
        var p' := Feed(p, block);
        if Done(p') then Finish(utf8, p')
        else if q == 2 && !Started(p') then Err(NoMessageInFirstSector)
        else ReadFrom(utf8, tag, p', q + 1, total)
  }

  function ReadText(utf8: seq<byte> -> bool, tag: Tag): Result<seq<byte>, ReadError> {
    match tag.read(CAPABILITY_BLOCK)
    case None => Err(CapabilityUnreadable)
    case Some(block) => ReadFrom(utf8, tag, NewParser(), 1, TotalQuads(block[2]))
  }

  /** Reads the text; block addresses stay within a byte, the last one possible being 252. */
  method ReadNdefText(utf8: seq<byte> -> bool, tag: Tag)
    returns (r: Result<seq<byte>, ReadError>, addresses: seq<byte>)
    ensures r == ReadText(utf8, tag)
    ensures |addresses| <= 64
    ensures forall i :: 0 <= i < |addresses| ==> addresses[i] <= 252 && addresses[i] == if i == 0 then 3 else 4 * i
  {
    var parser := new NdefMessageParser();
    addresses := [CAPABILITY_BLOCK];
    var capabilities := tag.read(CAPABILITY_BLOCK);
    if capabilities.None? {
      return Err(CapabilityUnreadable), addresses;
    }
    var total := TotalQuads(capabilities.value[2]);
    var quad: byte := 1;
    while quad < total + 1
      invariant 1 <= quad <= total + 1
      invariant ReadFrom(utf8, tag, parser.Contents(), quad, total) == ReadText(utf8, tag)
      invariant |addresses| == quad
      invariant forall i :: 0 <= i < |addresses| ==> addresses[i] == if i == 0 then 3 else 4 * i
    {
      var address: byte := 4 * quad;
      addresses := addresses + [address];
      var block := tag.read(address);
      if block.None? {
        return Err(BlockUnreadable(address)), addresses;
      }
      parser.AddData(block.value);
      var done := parser.IsDone();
      if done {
        break;
      }
      var started := parser.HasStarted();
      if quad == 2 && !started {
        return Err(NoMessageInFirstSector), addresses;
      }
      quad := quad + 1;
    }
    var done := parser.IsDone();
    if !done {
      return Err(MessageIncomplete), addresses;
    }
    var record := ParseTextRecord(parser.data);
    if record.Err? {
      return Err(BadRecord(record.error)), addresses;
    }
    var text := Text(utf8, record.value);
    if text.Err? {
      return Err(BadRecord(text.error)), addresses;
    }
    r := Ok(text.value);
  }

  // ------------------------------------------------------------------
  // What a tag says, apart from how it is read.

  /** The number of quads from the first on, up to `total`, that can be read. */
  function Readable(tag: Tag, q: nat, total: nat): (n: nat)
    requires 1 <= q <= total + 1 && total <= 63
    ensures q - 1 <= n <= total
    decreases total + 1 - q
  {
    if q > total || tag.read(4 * q).None? then q - 1 else Readable(tag, q + 1, total)
  }

  function Contents(tag: Tag, n: nat): (s: seq<byte>)
    requires n <= 63
    ensures |s| <= 16 * n
  {
    if n == 0 then []
    else Contents(tag, n - 1) + match tag.read(4 * n) case Some(block) => block case None => []
  }

  /** The bytes the tag shows: the leading readable quads its capability byte admits. */
  function Visible(tag: Tag): seq<byte>
    requires tag.read(CAPABILITY_BLOCK).Some?
  {
    var total := TotalQuads(tag.read(CAPABILITY_BLOCK).value[2]);
    Contents(tag, Readable(tag, 1, total))
  }

  /** The high length byte is zero and the last of its quad. */
  predicate HighByteEndsQuad(s: seq<byte>) {
    ZeroHigh(s) && (Marker(s) + 3) % 16 == 0
  }

  /** The bytes hold a message that begins in the first two quads and is a text record carrying `text`. */
  predicate Holds(utf8: seq<byte> -> bool, s: seq<byte>, text: seq<byte>) {
    && Extract(s).Some? && Marker(s) < 32 && !HighByteEndsQuad(s)
    && Parse(Extract(s).value).Ok?
    && Text(utf8, Parse(Extract(s).value).value) == Ok(text)
  }

  lemma {:induction false} ContentsGrow(tag: Tag, n: nat, k: nat) returns (x: seq<byte>)
    requires n <= k <= 63
    ensures Contents(tag, k) == Contents(tag, n) + x
    decreases k
  {
    if n == k {
      x := [];
    } else {
      x := ContentsGrow(tag, n, k - 1);
      x := x + match tag.read(4 * k) case Some(block) => block case None => [];
    }
  }

  /** A parser past an empty message never gets done within a tag. */
  lemma {:induction false} FeedStuck(p: Parser, chunk: seq<byte>)
    requires p.state.Value? && p.length == 0 && 0 < |p.data| && |p.data| + |chunk| < 0x1_0000_0000
    ensures var p' := Feed(p, chunk);
            p'.state.Value? && p'.length == 0 && |p'.data| == |p.data| + |chunk| && !Done(p')
    decreases chunk
  {
    if chunk != [] {
      FeedStuck(Consume(p, chunk[0]), chunk[1..]);
    }
  }

  /** One quad that leaves the message incomplete and the parser not done keeps the zero high byte out of the way. */
  lemma {:induction false} QuadKeeps(t: seq<byte>, block: seq<byte>)
    requires |t| % 16 == 0 && |block| == 16 && !HighByteEndsQuad(t)
    ensures HighByteEndsQuad(t + block) <==> ZeroHigh(t + block) && Marker(t + block) + 3 == |t| + 16
  {
    MarkerPrefix(t, block);
    var end := Marker(t + block) + 3;
    if ZeroHigh(t + block) && end % 16 == 0 {
      if end <= |t| {
        assert ZeroHigh(t);
      }
      NextMultiple(|t|, end);
    }
  }

  lemma {:induction false} NextMultiple(a: nat, b: nat)
    requires a % 16 == 0 && b % 16 == 0 && a < b <= a + 16
    ensures b == a + 16
  {
  }

  lemma {:induction false} HighByteStays(t: seq<byte>, x: seq<byte>)
    requires HighByteEndsQuad(t)
    ensures HighByteEndsQuad(t + x)
  {
    ZeroHighPrefix(t, x);
  }

  /** What the quad that completes a message settles about the whole tag. */
  lemma {:induction false} CompleteLayout(t: seq<byte>, block: seq<byte>, x: seq<byte>)
    requires |t| % 16 == 0 && |block| == 16 && !HighByteEndsQuad(t)
    requires Extract(t + block).Some? && (|t| >= 32 ==> Marker(t) < 32)
    ensures var s := t + block + x;
            Extract(s) == Extract(t + block) && Marker(s) < 32 && !HighByteEndsQuad(s)
  {
    ExtractPrefix(t + block, x);
    MarkerPrefix(t, block);
    MarkerPrefix(t + block, x);
    QuadKeeps(t, block);
    assert ZeroHigh(t + block + x) <==> ZeroHigh(t + block);
  }

  /** What a quad that leaves the message incomplete settles. */
  lemma {:induction false} IncompleteQuad(t: seq<byte>, block: seq<byte>, x: seq<byte>)
    requires |t| % 16 == 0 && |block| == 16 && !HighByteEndsQuad(t)
    requires Extract(t).None? && Extract(t + block).None?
    ensures Feed(Describe(t), block) == Describe(t + block)
    ensures Done(Describe(t + block)) <==> HighByteEndsQuad(t + block)
    ensures Done(Describe(t + block)) ==> HighByteEndsQuad(t + block + x) && Describe(t + block).data == []
    ensures Started(Describe(t + block)) <==> Marker(t + block) < |t| + 16
    ensures !Started(Describe(t + block)) ==> Marker(t + block + x) >= |t| + 16
    ensures Marker(t) < |t| ==> Marker(t + block) == Marker(t)
  {
    FeedChunk(t, block);
    DoneMeans(t + block);
    DescribeIs(t + block);
    QuadKeeps(t, block);
    MarkerPrefix(t, block);
    MarkerPrefix(t + block, x);
    if HighByteEndsQuad(t + block) {
      HighByteStays(t + block, x);
    }
  }

  lemma {:induction false} BodyAhead(t: seq<byte>, x: seq<byte>)
    requires Extract(t).None? && Extract(t + x) == Some([])
    ensures |t| < BodyStart(t + x)
  {
    if BodyStart(t + x) <= |t| {
      HeaderPrefix(t, x);
    }
  }

  /** The loop has come to quad `q`, the quads before it, `t`, being consumed without a decision. */
  ghost predicate Consumed(tag: Tag, t: seq<byte>, q: nat, total: nat) {
    && 1 <= q <= total + 1 && total <= 63
    && t == Contents(tag, q - 1) && |t| == 16 * (q - 1)
    && Extract(t).None? && !Done(Describe(t)) && !HighByteEndsQuad(t)
    && (q > 2 ==> Marker(t) < 32)
  }

  /** Quad `q` can be read and does not end the loop. */
  predicate GoesOn(tag: Tag, t: seq<byte>, q: nat, total: nat)
    requires 1 <= q <= total + 1 && total <= 63
  {
    && q <= total && tag.read(4 * q).Some?
    && var t1 := t + tag.read(4 * q).value;
       Extract(t1).None? && !Done(Describe(t1)) && (q == 2 ==> Started(Describe(t1)))
  }

  /** One turn of the loop. */
  lemma {:induction false} ReadStep(utf8: seq<byte> -> bool, tag: Tag, p: Parser, q: nat, total: nat)
    requires 1 <= q <= total <= 63 && tag.read(4 * q).Some?
    ensures var p' := Feed(p, tag.read(4 * q).value);
            ReadFrom(utf8, tag, p, q, total)
            == if Done(p') then Finish(utf8, p')
               else if q == 2 && !Started(p') then Err(NoMessageInFirstSector)
               else ReadFrom(utf8, tag, p', q + 1, total)
  {
  }

  lemma {:induction false} QuadGoesOn(utf8: seq<byte> -> bool, tag: Tag, t: seq<byte>, q: nat, total: nat)
    requires Consumed(tag, t, q, total) && GoesOn(tag, t, q, total)
    ensures Consumed(tag, t + tag.read(4 * q).value, q + 1, total)
    ensures ReadFrom(utf8, tag, Describe(t), q, total)
         == ReadFrom(utf8, tag, Describe(t + tag.read(4 * q).value), q + 1, total)
    ensures Readable(tag, q, total) == Readable(tag, q + 1, total)
  {
    IncompleteQuad(t, tag.read(4 * q).value, []);
    ReadStep(utf8, tag, Describe(t), q, total);
  }

  lemma {:induction false} ContentsBehind(tag: Tag, q: nat, total: nat) returns (x: seq<byte>)
    requires 1 <= q <= total <= 63 && tag.read(4 * q).Some?
    ensures Contents(tag, Readable(tag, q, total)) == Contents(tag, q - 1) + tag.read(4 * q).value + x
  {
    x := ContentsGrow(tag, q, Readable(tag, q + 1, total));
  }

  /** The quad at which the loop comes to its decision. */
  lemma {:induction false} FindDecision(utf8: seq<byte> -> bool, tag: Tag, t: seq<byte>, q: nat, total: nat)
    returns (t': seq<byte>, q': nat)
    requires Consumed(tag, t, q, total)
    ensures Consumed(tag, t', q', total) && !GoesOn(tag, t', q', total)
    ensures ReadFrom(utf8, tag, Describe(t'), q', total) == ReadFrom(utf8, tag, Describe(t), q, total)
    ensures Readable(tag, q', total) == Readable(tag, q, total)
    decreases total + 1 - q
  {
    if GoesOn(tag, t, q, total) {
      QuadGoesOn(utf8, tag, t, q, total);
      t', q' := FindDecision(utf8, tag, t + tag.read(4 * q).value, q + 1, total);
    } else {
      t', q' := t, q;
    }
  }

  // ------------------------------------------------------------------
  // Everything reading a tag can return.

  /** What a message comes to. */
  function TextOf(utf8: seq<byte> -> bool, message: seq<byte>): Result<seq<byte>, ReadError> {
    match Parse(message)
    case Err(error) => Err(BadRecord(error))
    case Ok(payload) =>
      match Text(utf8, payload)
      case Err(error) => Err(BadRecord(error))
      case Ok(text) => Ok(text)
  }

  /** The error when the quads run out: the next one cannot be read, or there is none. */
  function Starved(tag: Tag, total: nat): ReadError
    requires total <= 63
  {
    var n := Readable(tag, 1, total);
    if n < total then BlockUnreadable(4 * (n + 1)) else MessageIncomplete
  }

  /**
    The result by the bytes a tag shows.  A first sector without a marker comes
    first, then a quad that ends behind a zero high length byte, which reads as
    an empty message; an empty message that does not end with a quad goes
    unnoticed.
   */
  function Outcome(utf8: seq<byte> -> bool, s: seq<byte>, starved: ReadError): Result<seq<byte>, ReadError> {
    if |s| >= 32 && Marker(s) >= 32 then Err(NoMessageInFirstSector)
    else if HighByteEndsQuad(s) then Err(BadRecord(Truncated("flags")))
    else
      match Extract(s)
      case None => Err(starved)
      case Some(message) =>
        if message == [] && BodyStart(s) % 16 != 0 then Err(starved) else TextOf(utf8, message)
  }

  lemma {:induction false} FinishIs(utf8: seq<byte> -> bool, p: Parser)
    requires Done(p)
    ensures Finish(utf8, p) == TextOf(utf8, p.data)
  {
  }

  lemma {:induction false} StuckStarves(utf8: seq<byte> -> bool, tag: Tag, p: Parser, q: nat, total: nat)
    requires 1 <= q <= total + 1 && total <= 63
    requires p.state.Value? && p.length == 0 && 0 < |p.data| <= 16 * q
    ensures var n := Readable(tag, q, total);
            ReadFrom(utf8, tag, p, q, total)
            == Err(if n < total then BlockUnreadable(4 * (n + 1)) else MessageIncomplete)
    decreases total + 1 - q
  {
    FeedStuck(p, []);
    if q <= total && tag.read(4 * q).Some? {
      var block: Block := tag.read(4 * q).value;
      FeedStuck(p, block);
      StuckStarves(utf8, tag, Feed(p, block), q + 1, total);
    }
  }

  /** The quads run out before a decision. */
  lemma {:induction false} StarvedOutcome(utf8: seq<byte> -> bool, tag: Tag, t: seq<byte>, q: nat, total: nat)
    requires Consumed(tag, t, q, total) && (q > total || tag.read(4 * q).None?)
    requires Readable(tag, q, total) == Readable(tag, 1, total)
    ensures ReadFrom(utf8, tag, Describe(t), q, total) == Outcome(utf8, t, Starved(tag, total))
    ensures Contents(tag, Readable(tag, q, total)) == t
  {
  }

  /** The loop on an empty message: the parser notices its end exactly if a quad ends there. */
  lemma {:induction false} EmptyRead(utf8: seq<byte> -> bool, tag: Tag, t: seq<byte>, q: nat, total: nat)
    requires 1 <= q <= total <= 63 && |t| == 16 * (q - 1) && tag.read(4 * q).Some?
    requires Readable(tag, q, total) == Readable(tag, 1, total)
    requires Extract(t).None? && Extract(t + tag.read(4 * q).value) == Some([])
    ensures var t1 := t + tag.read(4 * q).value;
            ReadFrom(utf8, tag, Describe(t), q, total)
            == if |t1| == BodyStart(t1) then TextOf(utf8, []) else Err(Starved(tag, total))
  {
    var block: Block := tag.read(4 * q).value;
    var t1 := t + block;
    assert t1 + [] == t1;
    BodyAhead(t, block);
    FeedEmpty(t, block, []);
    ReadStep(utf8, tag, Describe(t), q, total);
    var p := Feed(Describe(t), block);
    if |t1| > BodyStart(t1) {
      FeedStuck(p, []);
      StuckStarves(utf8, tag, p, q + 1, total);
    } else {
      EmptyDone(t1, []);
      FinishIs(utf8, p);
    }
  }

  /** What the tag shows then. */
  lemma {:induction false} EmptyShows(utf8: seq<byte> -> bool, t: seq<byte>, block: seq<byte>, x: seq<byte>,
          starved: ReadError)
    requires |t| % 16 == 0 && |block| == 16 && Extract(t).None? && !HighByteEndsQuad(t)
    requires Extract(t + block) == Some([]) && (|t| >= 32 ==> Marker(t) < 32)
    ensures Outcome(utf8, t + block + x, starved)
         == if |t + block| == BodyStart(t + block) then TextOf(utf8, []) else Err(starved)
  {
    var t1 := t + block;
    BodyAhead(t, block);
    CompleteLayout(t, block, x);
    MarkerPrefix(t1, x);
    assert BodyStart(t1 + x) == BodyStart(t1);
    if BodyStart(t1) < |t1| {
      NotMultiple(|t|, BodyStart(t1));
    }
  }

  lemma {:induction false} NotMultiple(a: nat, b: nat)
    requires a % 16 == 0 && a < b < a + 16
    ensures b % 16 != 0
  {
  }

  lemma {:induction false} CompleteOutcome(utf8: seq<byte> -> bool, tag: Tag, t: seq<byte>, q: nat, total: nat,
          x: seq<byte>, starved: ReadError)
    requires Consumed(tag, t, q, total) && q <= total && tag.read(4 * q).Some?
    requires var message := Extract(t + tag.read(4 * q).value); message.Some? && message != Some([])
    ensures ReadFrom(utf8, tag, Describe(t), q, total) == Outcome(utf8, t + tag.read(4 * q).value + x, starved)
  {
    var block: Block := tag.read(4 * q).value;
    CompleteLayout(t, block, x);
    FeedChunk(t, block);
    MessageIsShort(t + block);
    FinishIs(utf8, Feed(Describe(t), block));
  }

  /** A zero high length byte at the end of a quad is taken for an empty message. */
  lemma {:induction false} HighByteOutcome(utf8: seq<byte> -> bool, t1: seq<byte>, x: seq<byte>, starved: ReadError)
    requires HighByteEndsQuad(t1 + x) && Marker(t1 + x) < 32 && Describe(t1).data == [] && Done(Describe(t1))
    ensures Finish(utf8, Describe(t1)) == Outcome(utf8, t1 + x, starved)
  {
    FinishIs(utf8, Describe(t1));
  }

  /** The marker of a message that has begun lies in the first two quads. */
  lemma {:induction false} BegunEarly(tag: Tag, t: seq<byte>, q: nat, total: nat, x: seq<byte>)
    requires Consumed(tag, t, q, total) && q <= total && tag.read(4 * q).Some?
    requires var t1 := t + tag.read(4 * q).value; Marker(t1) < |t1|
    ensures Marker(t + tag.read(4 * q).value + x) < 32
  {
    var t1 := t + tag.read(4 * q).value;
    MarkerPrefix(t, tag.read(4 * q).value);
    MarkerPrefix(t1, x);
  }

  lemma {:induction false} StoppedOutcome(utf8: seq<byte> -> bool, tag: Tag, t: seq<byte>, q: nat, total: nat,
          x: seq<byte>, starved: ReadError)
    requires Consumed(tag, t, q, total) && q <= total && tag.read(4 * q).Some?
    requires var t1 := t + tag.read(4 * q).value; Extract(t1).None? && Done(Describe(t1))
    ensures ReadFrom(utf8, tag, Describe(t), q, total) == Outcome(utf8, t + tag.read(4 * q).value + x, starved)
  {
    var block: Block := tag.read(4 * q).value;
    var t1 := t + block;
    IncompleteQuad(t, block, x);
    ReadStep(utf8, tag, Describe(t), q, total);
    assert Marker(t1) < |t1| by {
      DoneMeans(t1);
    }
    BegunEarly(tag, t, q, total, x);
    HighByteOutcome(utf8, t1, x, starved);
  }

  lemma {:induction false} UnstartedOutcome(utf8: seq<byte> -> bool, tag: Tag, t: seq<byte>, total: nat, x: seq<byte>,
          starved: ReadError)
    requires Consumed(tag, t, 2, total) && 2 <= total && tag.read(8).Some?
    requires var t1 := t + tag.read(8).value; Extract(t1).None? && !Done(Describe(t1)) && !Started(Describe(t1))
    ensures ReadFrom(utf8, tag, Describe(t), 2, total) == Outcome(utf8, t + tag.read(8).value + x, starved)
  {
    var block: Block := tag.read(8).value;
    IncompleteQuad(t, block, x);
    ReadStep(utf8, tag, Describe(t), 2, total);
  }

  lemma {:induction false} EmptyOutcome(utf8: seq<byte> -> bool, tag: Tag, t: seq<byte>, q: nat, total: nat,
          x: seq<byte>)
    requires Consumed(tag, t, q, total) && q <= total && tag.read(4 * q).Some?
    requires Readable(tag, q, total) == Readable(tag, 1, total)
    requires Extract(t + tag.read(4 * q).value) == Some([])
    ensures ReadFrom(utf8, tag, Describe(t), q, total)
         == Outcome(utf8, t + tag.read(4 * q).value + x, Starved(tag, total))
  {
    EmptyRead(utf8, tag, t, q, total);
    EmptyShows(utf8, t, tag.read(4 * q).value, x, Starved(tag, total));
  }

  lemma {:induction false} DecidedOutcome(utf8: seq<byte> -> bool, tag: Tag, t: seq<byte>, q: nat, total: nat,
          x: seq<byte>)
    requires Consumed(tag, t, q, total) && !GoesOn(tag, t, q, total) && q <= total && tag.read(4 * q).Some?
    requires Readable(tag, q, total) == Readable(tag, 1, total)
    ensures ReadFrom(utf8, tag, Describe(t), q, total)
         == Outcome(utf8, t + tag.read(4 * q).value + x, Starved(tag, total))
  {
    var message := Extract(t + tag.read(4 * q).value);
    if message.None? {
      if Done(Describe(t + tag.read(4 * q).value)) {
        StoppedOutcome(utf8, tag, t, q, total, x, Starved(tag, total));
      } else {
        UnstartedOutcome(utf8, tag, t, total, x, Starved(tag, total));
      }
    } else if message.value == [] {
      EmptyOutcome(utf8, tag, t, q, total, x);
    } else {
      CompleteOutcome(utf8, tag, t, q, total, x, Starved(tag, total));
    }
  }

  /**
    For every tag, whatever can or cannot be read of it, what reading returns is
    told by the bytes it shows and, where these decide nothing, by the first quad
    that is missing: every text and every error.
   */
  lemma {:induction false} ReadOutcome(utf8: seq<byte> -> bool, tag: Tag)
    ensures ReadText(utf8, tag) ==
            if tag.read(CAPABILITY_BLOCK).None? then Err(CapabilityUnreadable)
            else Outcome(utf8, Visible(tag), Starved(tag, TotalQuads(tag.read(CAPABILITY_BLOCK).value[2])))
  {
    if tag.read(CAPABILITY_BLOCK).Some? {
      var total := TotalQuads(tag.read(CAPABILITY_BLOCK).value[2]);
      assert Describe([]) == NewParser();
      var t, q := FindDecision(utf8, tag, [], 1, total);
      if q > total || tag.read(4 * q).None? {
        StarvedOutcome(utf8, tag, t, q, total);
      } else {
        var x := ContentsBehind(tag, q, total);
        DecidedOutcome(utf8, tag, t, q, total, x);
      }
    }
  }

  /**
    Reading a tag is sound and complete: it yields `text` exactly when the
    capability container can be read and the visible bytes hold, behind fewer
    than 32 other bytes, a message that is a text record carrying `text`, and no
    quad ends behind a zero high length byte.
   */
  lemma {:induction false} ReadIsExact(utf8: seq<byte> -> bool, tag: Tag, text: seq<byte>)
    ensures ReadText(utf8, tag) == Ok(text) <==>
              tag.read(CAPABILITY_BLOCK).Some? && Holds(utf8, Visible(tag), text)
  {
    ReadOutcome(utf8, tag);
  }

  // ------------------------------------------------------------------
  // The same, as a layout of bytes.

  predicate Fits(long: bool, message: seq<byte>) {
    |message| < if long then 0x1_0000 else 0xff
  }

  function TlvHead(long: bool, n: nat): seq<byte>
    requires n < if long then 0x1_0000 else 0xff
  {
    [NDEF_TLV] + if long then [LONG_LENGTH, n / 256, n % 256] else [n]
  }

  /** Filler, the marker and a length in either form, the message, and whatever else is on the tag. */
  function Layout(filler: seq<byte>, long: bool, message: seq<byte>, rest: seq<byte>): seq<byte>
    requires Fits(long, message)
  {
    filler + TlvHead(long, |message|) + message + rest
  }

  predicate NoMarker(filler: seq<byte>) {
    forall i :: 0 <= i < |filler| ==> filler[i] != NDEF_TLV
  }

  lemma {:induction false} LayoutExtracts(filler: seq<byte>, long: bool, message: seq<byte>, rest: seq<byte>)
    requires Fits(long, message) && NoMarker(filler)
    ensures var s := Layout(filler, long, message, rest);
            && Extract(s) == Some(message) && Marker(s) == |filler|
            && (ZeroHigh(s) <==> long && |message| < 256)
  {
    var s, n := Layout(filler, long, message, rest), |message|;
    var head := filler + TlvHead(long, n);
    MarkerIs(s, |filler|);
    assert s[|filler| + 1] == if long then LONG_LENGTH else n;
    assert BodyStart(s) == |head| && BodyLength(s) == n;
    Middle(head, message, rest);
  }

  /** The bytes from the marker to the message are a type and a length in one of its forms. */
  lemma {:induction false} HeadIs(s: seq<byte>)
    requires BodyStart(s) <= |s|
    ensures BodyLength(s) < if IsLong(s) then 0x1_0000 else 0xff
    ensures s[Marker(s)..BodyStart(s)] == TlvHead(IsLong(s), BodyLength(s))
  {
    var m, n := Marker(s), BodyLength(s);
    if IsLong(s) {
      assert n / 256 == s[m + 2] && n % 256 == s[m + 3];
      assert s[m..m + 4] == [s[m], s[m + 1], s[m + 2], s[m + 3]];
    } else {
      assert s[m..m + 2] == [s[m], s[m + 1]];
    }
  }

  /** Wherever a message is extracted, the stream is laid out around it. */
  lemma {:induction false} ExtractIsLayout(s: seq<byte>) returns (filler: seq<byte>, long: bool, rest: seq<byte>)
    requires Extract(s).Some?
    ensures Fits(long, Extract(s).value) && NoMarker(filler) && |filler| == Marker(s)
    ensures s == Layout(filler, long, Extract(s).value, rest)
  {
    var at, n := BodyStart(s), BodyLength(s);
    filler, long, rest := s[..Marker(s)], IsLong(s), s[at + n..];
    MarkerIsFirst(s);
    HeadIs(s);
    assert s == s[..Marker(s)] + s[Marker(s)..at] + s[at..at + n] + s[at + n..];
  }

  /** A text laid out on a tag, in a record with anything behind it in the message and on the tag, is read back. */
  lemma {:induction false} WrittenTextIsRead(utf8: seq<byte> -> bool, tag: Tag, filler: seq<byte>, long: bool,
          record: Record, more: seq<byte>, rest: seq<byte>, text: seq<byte>)
    requires Printable(record) && IsText(record) && Text(utf8, record.payload) == Ok(text)
    requires Fits(long, Print(record) + more) && NoMarker(filler) && |filler| < 32
    requires long && |Print(record) + more| < 256 ==> (|filler| + 3) % 16 != 0
    requires tag.read(CAPABILITY_BLOCK).Some? && Visible(tag) == Layout(filler, long, Print(record) + more, rest)
    ensures ReadText(utf8, tag) == Ok(text)
  {
    LayoutExtracts(filler, long, Print(record) + more, rest);
    ParsePrint(record, more);
    ReadIsExact(utf8, tag, text);
  }

  /**
    A text that is read is laid out on the tag: fewer than 32 bytes without a
    marker, the TLV, a text record carrying it.
   */
  lemma {:induction false} ReadTextIsWritten(utf8: seq<byte> -> bool, tag: Tag, text: seq<byte>)
    returns (filler: seq<byte>, long: bool, record: Record, more: seq<byte>, rest: seq<byte>)
    requires ReadText(utf8, tag) == Ok(text)
    ensures Printable(record) && IsText(record) && Text(utf8, record.payload) == Ok(text)
    ensures Fits(long, Print(record) + more) && NoMarker(filler) && |filler| < 32
    ensures tag.read(CAPABILITY_BLOCK).Some? && Visible(tag) == Layout(filler, long, Print(record) + more, rest)
  {
    ReadIsExact(utf8, tag, text);
    filler, long, rest := ExtractIsLayout(Visible(tag));
    var message := Extract(Visible(tag)).value;
    PrintParse(message);
    record, more := RecordOf(message), message[RecordEnd(message)..];
  }

  // ------------------------------------------------------------------
  // How much of a tag is read.

  /**
    The quads read are the whole ones among the declared bytes, 63 at the most;
    so all declared bytes are read exactly if their number is a multiple of
    sixteen and at most 1008.
   */
  lemma {:induction false} CapacityIsExact(capability: byte)
    ensures forall n: nat :: n <= TotalQuads(capability) <==> n <= 63 && 16 * n <= 8 * capability as int
    ensures 16 * TotalQuads(capability) == 8 * capability as int <==> capability % 2 == 0 && capability <= 126
  {
  }

  function MessageEnd(s: seq<byte>): (end: nat)
    requires Extract(s).Some?
    ensures BodyStart(s) <= end <= |s|
  {
    BodyStart(s) + BodyLength(s)
  }

  /** A message in the data area is found in its first bytes exactly if it ends among them. */
  lemma {:induction false} ExtractFromFront(v: seq<byte>, x: seq<byte>)
    ensures Extract(v).Some? <==> Extract(v + x).Some? && MessageEnd(v + x) <= |v|
    ensures Extract(v).Some? ==>
              Extract(v + x) == Extract(v) && Marker(v + x) == Marker(v) && (ZeroHigh(v + x) <==> ZeroHigh(v))
  {
    if Extract(v).Some? {
      ExtractPrefix(v, x);
      MarkerPrefix(v, x);
    } else if Extract(v + x).Some? && MessageEnd(v + x) <= |v| {
      HeaderPrefix(v, x);
    }
  }

  /**
    Reading against the whole data area of a tag, of which the bytes read are
    the beginning: a text is read exactly if the area holds it and its message
    ends among the bytes read.
   */
  lemma {:induction false} TailIsLost(utf8: seq<byte> -> bool, tag: Tag, behind: seq<byte>, text: seq<byte>)
    requires tag.read(CAPABILITY_BLOCK).Some?
    ensures var area := Visible(tag) + behind;
            ReadText(utf8, tag) == Ok(text) <==> Holds(utf8, area, text) && MessageEnd(area) <= |Visible(tag)|
  {
    ExtractFromFront(Visible(tag), behind);
    ReadIsExact(utf8, tag, text);
  }

  /** A data area of 24 bytes that a short record with this text fills. */
  function ShortText(text: seq<byte>): (area: seq<byte>)
    requires |text| == 15
    ensures |area| == 24
  {
    Layout([], false, Print(Record(3, 1, TEXT_TYPE, true, None, TextPayload(0, [0x65, 0x6e], text))), [])
  }

  function TagOf(capability: byte, block: Block): Tag {
    var container: Block := [0xe1, 0x10, capability, 0, 0, 0, 0, 0, 0, 0, 0, 0, 0, 0, 0, 0];
    Tag(address => Some(if address == CAPABILITY_BLOCK then container else block))
  }

  lemma {:induction false} ShortTextHolds(utf8: seq<byte> -> bool, text: seq<byte>)
    requires |text| == 15 && utf8(text)
    ensures Holds(utf8, ShortText(text), text) && MessageEnd(ShortText(text)) == 24
  {
    var record := Record(3, 1, TEXT_TYPE, true, None, TextPayload(0, [0x65, 0x6e], text));
    LayoutExtracts([], false, Print(record), []);
    assert Print(record) + [] == Print(record);
    TextRoundTrip(utf8, record, 0, [0x65, 0x6e], text, []);
  }

  lemma {:induction false} VisibleOfSmallTag(capability: byte, block: Block)
    requires 2 <= capability <= 3
    ensures Visible(TagOf(capability, block)) == block
  {
    var tag := TagOf(capability, block);
    assert TotalQuads(capability) == 1;
    assert Readable(tag, 1, 1) == 1;
    assert Contents(tag, 1) == [] + block;
  }

  /** A tag that declares 24 bytes, one and a half quads, holds a text in them that is not read. */
  lemma {:induction false} OddCapabilityExample(utf8: seq<byte> -> bool, text: seq<byte>)
    requires |text| == 15 && utf8(text)
    ensures Holds(utf8, ShortText(text), text)
    ensures ReadText(utf8, TagOf(3, ShortText(text)[..16])).Err?
  {
    var area := ShortText(text);
    var tag := TagOf(3, area[..16]);
    ShortTextHolds(utf8, text);
    VisibleOfSmallTag(3, area[..16]);
    assert Visible(tag) + area[16..] == area;
    var r := ReadText(utf8, tag);
    TailIsLost(utf8, tag, area[16..], if r.Ok? then r.value else []);
  }
}
