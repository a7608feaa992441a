/**
  The walk over TLV blocks that section 2.3 of the NFC Forum Type 2 Tag
  Operation specification 1.1 prescribes, against the search for the first
  marker byte, and what the difference means for reading a tag.
 */
module NdefTlv {
  import opened Basics
  import opened NdefStream
  import opened NdefRecord
  import opened NdefTag

  const NULL_TLV: byte := 0x00
  const TERMINATOR_TLV: byte := 0xfe

  /**
    The size of the block a stream begins with: one byte for a NULL block,
    otherwise a type, a length in either form and the value.  A block that is cut
    short takes all there is.
   */
  function BlockSize(s: seq<byte>): (n: nat)
    requires s != []
    ensures 1 <= n <= |s|
  {
    if s[0] == NULL_TLV then 1
    else if |s| < 2 then |s|
    else if s[1] != LONG_LENGTH then Min(2 + s[1] as int, |s|)
    else if |s| < 4 then |s|
    else Min(4 + s[2] as int * 256 + s[3], |s|)
  }

  /** Position of the NDEF block the walk comes to, or the length of the stream if it comes to none. */
  function Walk(s: seq<byte>): (m: nat)
    ensures m <= |s|
    ensures m < |s| ==> s[m] == NDEF_TLV
    decreases |s|
  {
    if s == [] || s[0] == NDEF_TLV then 0
    else if s[0] == TERMINATOR_TLV then |s|
    else BlockSize(s) + Walk(s[BlockSize(s)..])
  }

  /** No block in front of the NDEF block contains its marker byte, and nothing behind a terminator does. */
  predicate CleanBlocks(s: seq<byte>)
    decreases |s|
  {
    if s == [] || s[0] == NDEF_TLV then true
    else if s[0] == TERMINATOR_TLV then NoMarker(s)
    else NoMarker(s[..BlockSize(s)]) && CleanBlocks(s[BlockSize(s)..])
  }

  /** The message of the NDEF block the walk comes to. */
  function StandardExtract(s: seq<byte>): Option<seq<byte>> {
    Extract(s[Walk(s)..])
  }

  lemma {:induction false} MarkerBehind(s: seq<byte>, n: nat)
    requires n <= |s| && NoMarker(s[..n])
    ensures Marker(s) == n + Marker(s[n..])
  {
    var m := n + Marker(s[n..]);
    MarkerIsFirst(s[n..]);
    forall i | 0 <= i < m
      ensures s[i] != NDEF_TLV
    {
      if i < n {
        assert s[..n][i] == s[i];
      } else {
        assert s[n..][i - n] == s[i];
      }
    }
    MarkerIs(s, m);
  }

  lemma {:induction false} MarkerInside(s: seq<byte>, n: nat)
    requires n <= |s| && !NoMarker(s[..n])
    ensures Marker(s) < n
  {
    MarkerIsFirst(s);
  }

  /**
    The code finds the marker the standard prescribes exactly if no block in
    front of it contains a marker byte; otherwise it takes one inside such a
    block, or behind a terminator, for the marker.
   */
  lemma {:induction false} MarkerIsWalk(s: seq<byte>)
    ensures Marker(s) <= Walk(s)
    ensures Marker(s) == Walk(s) <==> CleanBlocks(s)
    decreases |s|
  {
    if s == [] || s[0] == NDEF_TLV {
    } else if s[0] == TERMINATOR_TLV {
      MarkerIsFirst(s);
    } else {
      var n := BlockSize(s);
      if NoMarker(s[..n]) {
        MarkerBehind(s, n);
        MarkerIsWalk(s[n..]);
      } else {
        MarkerInside(s, n);
      }
    }
  }

  /** What is extracted depends only on the bytes from the marker on. */
  lemma {:induction false} ExtractFromMarker(s: seq<byte>)
    ensures Extract(s) == Extract(s[Marker(s)..])
  {
    var m := Marker(s);
    var t := s[m..];
    assert Marker(t) == 0;
    assert BodyStart(s) == m + BodyStart(t);
    if BodyStart(s) <= |s| {
      assert BodyLength(s) == BodyLength(t);
      var at, n := BodyStart(t), BodyLength(t);
      if at + n <= |t| {
        assert s[m + at..m + at + n] == t[at..at + n];
      }
    }
  }

  /**
    The bytes hold, at the NDEF block of the standard, a message that begins in
    the first two quads and carries `text`.
   */
  predicate StandardHolds(utf8: seq<byte> -> bool, s: seq<byte>, text: seq<byte>) {
    && StandardExtract(s).Some? && Walk(s) < 32
    && !(ZeroHigh(s[Walk(s)..]) && (Walk(s) + 3) % 16 == 0)
    && Parse(StandardExtract(s).value).Ok?
    && Text(utf8, Parse(StandardExtract(s).value).value) == Ok(text)
  }

  lemma {:induction false} HoldsIsStandard(utf8: seq<byte> -> bool, s: seq<byte>, text: seq<byte>)
    requires CleanBlocks(s)
    ensures Holds(utf8, s, text) <==> StandardHolds(utf8, s, text)
  {
    MarkerIsWalk(s);
    ExtractFromMarker(s);
    assert Marker(s[Marker(s)..]) == 0;
    assert ZeroHigh(s[Marker(s)..]) <==> ZeroHigh(s);
  }

  /**
    On a tag whose blocks are clean, a text is read exactly if the standard's
    NDEF block holds it.  A text read from any other tag was not taken from that
    block: its marker lies in front of it.
   */
  lemma {:induction false} ReadFollowsStandard(utf8: seq<byte> -> bool, tag: Tag, text: seq<byte>)
    requires tag.read(CAPABILITY_BLOCK).Some?
    ensures CleanBlocks(Visible(tag)) ==> (ReadText(utf8, tag) == Ok(text) <==> StandardHolds(utf8, Visible(tag), text))
    ensures ReadText(utf8, tag) == Ok(text) ==>
              (Marker(Visible(tag)) == Walk(Visible(tag)) <==> CleanBlocks(Visible(tag)))
    ensures !CleanBlocks(Visible(tag)) ==> Marker(Visible(tag)) < Walk(Visible(tag))
  {
    var s := Visible(tag);
    ReadIsExact(utf8, tag, text);
    MarkerIsWalk(s);
    if CleanBlocks(s) {
      HoldsIsStandard(utf8, s, text);
    }
  }

  // ------------------------------------------------------------------
  // Lock control blocks.

  /** A lock control block: type 1, length 3, and a first value byte that is not the long form's mark. */
  predicate BeginsWithLockControl(s: seq<byte>) {
    |s| >= 5 && s[0] == 0x01 && s[1] == 0x03 && s[2] != LONG_LENGTH
  }

  /**
    Behind a lock control block the code takes the length of that block for the
    marker and its first byte for the length.
   */
  lemma {:induction false} LockControlMisleads(s: seq<byte>)
    requires BeginsWithLockControl(s)
    ensures !CleanBlocks(s) && Marker(s) == 1
    ensures Extract(s) == if 3 + s[2] as int <= |s| then Some(s[3..3 + s[2] as int]) else None
    ensures Walk(s) == 5 + Walk(s[5..]) && StandardExtract(s) == StandardExtract(s[5..])
  {
    assert s[1..][0] == NDEF_TLV;
    MarkerIs(s, 1);
    assert s[..BlockSize(s)][1] == NDEF_TLV;
    assert s[Walk(s)..] == s[5..][Walk(s[5..])..];
  }

  /** No text is read from a tag too short for that length, whatever message stands behind the block. */
  lemma {:induction false} LockControlHidesText(utf8: seq<byte> -> bool, tag: Tag)
    requires tag.read(CAPABILITY_BLOCK).Some? && BeginsWithLockControl(Visible(tag))
    requires |Visible(tag)| < 3 + Visible(tag)[2] as int
    ensures ReadText(utf8, tag).Err?
  {
    LockControlMisleads(Visible(tag));
    if ReadText(utf8, tag).Ok? {
      ReadIsExact(utf8, tag, ReadText(utf8, tag).value);
      assert false;
    }
  }

  lemma {:induction false} BareMessage()
    ensures var t: seq<byte> := [0x03, 0x01, 0xaa, 0xfe];
            Walk(t) == 0 && StandardExtract(t) == Some([0xaa])
  {
    var t: seq<byte> := [0x03, 0x01, 0xaa, 0xfe];
    assert t[0..] == t && Marker(t) == 0 && t[2..3] == [0xaa];
  }

  /** A lock control block 01 03 a0 0c 34 in front of the complete message aa, which is not found. */
  lemma {:induction false} LockControlExample()
    ensures var s: seq<byte> := [0x01, 0x03, 0xa0, 0x0c, 0x34, 0x03, 0x01, 0xaa, 0xfe];
            && Walk(s) == 5 && StandardExtract(s) == Some([0xaa])
            && Marker(s) == 1 && Extract(s) == None
  {
    var s: seq<byte> := [0x01, 0x03, 0xa0, 0x0c, 0x34, 0x03, 0x01, 0xaa, 0xfe];
    LockControlMisleads(s);
    assert s[5..] == [0x03, 0x01, 0xaa, 0xfe];
    BareMessage();
  }

  /** Sixteen bytes: a lock control block and behind it the NDEF block of a record with a text of two bytes. */
  function LockedText(text: seq<byte>): (block: Block)
    requires |text| == 2
  {
    [0x01, 0x03, 0xa0, 0x0c, 0x34] +
    Layout([], false, Print(Record(3, 1, TEXT_TYPE, true, None, TextPayload(0, [0x65, 0x6e], text))), [])
  }

  lemma {:induction false} LockedTextHolds(utf8: seq<byte> -> bool, text: seq<byte>)
    requires |text| == 2 && utf8(text)
    ensures StandardHolds(utf8, LockedText(text), text)
  {
    var s := LockedText(text);
    var record := Record(3, 1, TEXT_TYPE, true, None, TextPayload(0, [0x65, 0x6e], text));
    var t := Layout([], false, Print(record), []);
    assert s[5..] == t && t[0] == NDEF_TLV;
    LockControlMisleads(s);
    assert Walk(t) == 0 && t[0..] == t;
    LayoutExtracts([], false, Print(record), []);
    assert Print(record) + [] == Print(record);
    TextRoundTrip(utf8, record, 0, [0x65, 0x6e], text, []);
  }

  /** A tag of sixteen bytes on which the standard finds a text, and no text is read. */
  lemma {:induction false} LockedTagExample(utf8: seq<byte> -> bool, text: seq<byte>)
    requires |text| == 2 && utf8(text)
    ensures var tag := TagOf(2, LockedText(text));
            StandardHolds(utf8, Visible(tag), text) && ReadText(utf8, tag).Err?
  {
    VisibleOfSmallTag(2, LockedText(text));
    LockedTextHolds(utf8, text);
    LockControlHidesText(utf8, TagOf(2, LockedText(text)));
  }
}
