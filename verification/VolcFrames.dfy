/** The big-endian binary frames of the realtime voice protocol: one writer, two independent readers. */
module VolcFrames {
  import opened Wrappers

  type byte = b: int | 0 <= b < 256

  const TTS_ENDED_EVENT := 359
  const ASR_RESULT_EVENT := 451
  const SERVER_FULL_RESPONSE := 9

  // ---------- Python helpers ----------

  /** int.from_bytes(data, "big") */
  function FromBytes(data: seq<byte>): (n: nat)
    ensures n < Power256(|data|)
  {
    if data == [] then 0 else FromBytes(data[..|data| - 1]) * 256 + data[|data| - 1]
  }

  function Power256(k: nat): nat {
    if k == 0 then 1 else Power256(k - 1) * 256
  }

  /** int.from_bytes(data, "big", signed=True) */
  function FromBytesSigned(data: seq<byte>): int {
    var n := FromBytes(data);
    if data != [] && data[0] >= 128 then n - Power256(|data|) else n
  }

  /** n.to_bytes(4, "big"); None stands for OverflowError. */
  function ToBytes4(n: nat): (r: Option<seq<byte>>)
    ensures r.Some? <==> n < 0x1_0000_0000
    ensures r.Some? ==> |r.value| == 4
  {
    if n < 0x1_0000_0000 then Some([n / 0x100_0000, n / 0x1_0000 % 256, n / 0x100 % 256, n % 256]) else None
  }

  function Clamp(i: int, length: nat): (k: nat)
    ensures k <= length
  {
    var j := if i < 0 then i + length else i;
    if j < 0 then 0 else if j > length then length else j
  }

  /** data[from:] */
  function From(data: seq<byte>, from: int): seq<byte> {
    data[Clamp(from, |data|)..]
  }

  /** data[from:to] */
  function Slice(data: seq<byte>, from: int, to: int): seq<byte> {
    var i, j := Clamp(from, |data|), Clamp(to, |data|);
    if i <= j then data[i..j] else []
  }

  /** str.encode in UTF-8. */
  function EncodeChar(c: char): (r: seq<byte>)
    ensures |r| >= 1
    ensures |r| == 1 <==> (c as int) < 128
  {
    var n := c as int;
    if n < 0x80 then [n]
    else if n < 0x800 then [0xC0 + n / 64, 0x80 + n % 64]
    else if n < 0x1_0000 then [0xE0 + n / 4096, 0x80 + n / 64 % 64, 0x80 + n % 64]
    else [0xF0 + n / 0x4_0000, 0x80 + n / 4096 % 64, 0x80 + n / 64 % 64, 0x80 + n % 64]
  }

  function Encode(s: string): seq<byte> {
    if s == "" then [] else EncodeChar(s[0]) + Encode(s[1..])
  }

  predicate Ascii(s: string) {
    forall c | c in s :: (c as int) < 128
  }

  lemma {:induction false} AsciiLength(s: string)
    ensures |Encode(s)| >= |s|
    ensures |Encode(s)| == |s| <==> Ascii(s)
  {
    if s != "" {
      AsciiLength(s[1..]);
      assert s == [s[0]] + s[1..];
      if (s[0] as int) < 128 && Ascii(s[1..]) {
        assert forall c | c in s :: c == s[0] || c in s[1..];
        assert Ascii(s);
      } else {
        var wide := if (s[0] as int) >= 128 then s[0] else var c :| c in s[1..] && (c as int) >= 128; c;
        assert wide in s && !Ascii(s);
      }
    }
  }

  // ---------- the writer ----------

  function Flags(data: seq<byte>): int
    requires |data| >= 2
  {
    data[1] % 16
  }

  predicate HasSequence(flags: int) {
    flags % 4 != 0
  }

  predicate HasEvent(flags: int) {
    flags / 4 % 2 == 1
  }

  /**
   A header as long as its first byte says. The low half of the second byte holds the flags: 1 and 2 announce a
   sequence word and 4, which must be set, an event.
   */
  predicate ProperHeader(header: seq<byte>, sequence: seq<byte>) {
    && |header| >= 4
    && |header| == header[0] % 16 * 4
    && header[1] % 16 in {4, 5, 6, 7, 12, 13, 14, 15}
    && |sequence| == if header[1] % 16 in {4, 12} then 0 else 4
  }

  /** Header, sequence word, event, session id and payload; sizes are characters of the id and bytes of the payload. */
  function BuildFrame(header: seq<byte>, sequence: seq<byte>, event: nat, sessionID: string,
                      payload: seq<byte>): Option<seq<byte>> {
    var eventWord := ToBytes4(event);
    var idSize := ToBytes4(|sessionID|);
    var payloadSize := ToBytes4(|payload|);
    if eventWord.None? || idSize.None? || payloadSize.None? then None
    else Some(header + sequence + eventWord.value + idSize.value + Encode(sessionID) + payloadSize.value + payload)
  }

  // ---------- the readers ----------

  /** The event number of a frame, if it has one. */
  function ParseEventNum(data: seq<byte>): Option<int> {
    if |data| <= 8 then None
    else
      var offset := data[0] % 16 * 4 + if HasSequence(Flags(data)) then 4 else 0;
      if HasEvent(Flags(data)) && |data| > offset + 4 then Some(FromBytes(data[offset..offset + 4])) else None
  }

  /** A repeated end-of-speech frame that must not reach the plugin. */
  predicate ShouldDropDupTtsEnd(data: seq<byte>, hasActiveGeneration: bool) {
    !hasActiveGeneration && ParseEventNum(data) == Some(TTS_ENDED_EVENT)
  }

  datatype Extracted = Extracted(event: int, sessionID: seq<byte>, payload: seq<byte>)

  /** What follows the header and the optional sequence word. */
  function Body(data: seq<byte>): seq<byte>
    requires |data| >= 2
  {
    From(From(data, data[0] % 16 * 4), if HasSequence(Flags(data)) then 4 else 0)
  }

  /** The offset logic of the transcript reader, for a body that starts with its event word. */
  function ReadBody(body: seq<byte>): Extracted {
    var afterEvent := From(body, 4);
    var idSize := FromBytesSigned(Slice(afterEvent, 0, 4));
    var rest := From(afterEvent, 4 + idSize);
    var payloadSize := FromBytes(Slice(rest, 0, 4));
    Extracted(FromBytes(Slice(body, 0, 4)), Slice(afterEvent, 4, 4 + idSize), Slice(rest, 4, 4 + payloadSize))
  }

  /** The transcript event of a server response, or None. */
  function ExtractTextEvent(data: seq<byte>): Option<Extracted> {
    if |data| < 4 || data[1] / 16 != SERVER_FULL_RESPONSE || !HasEvent(Flags(data)) then None
    else
      var read := ReadBody(Body(data));
      if read.event == ASR_RESULT_EVENT then Some(read) else None
  }

  // ---------- round trips ----------

  lemma FourBytes(a: byte, b: byte, c: byte, d: byte)
    ensures FromBytes([a, b, c, d]) == ((a * 256 + b) * 256 + c) * 256 + d
    ensures FromBytesSigned([a, b, c, d]) == FromBytes([a, b, c, d]) - if a >= 128 then 0x1_0000_0000 else 0
  {
    assert [a, b, c, d][..3] == [a, b, c] && [a, b, c][..2] == [a, b] && [a, b][..1] == [a] && [a][..0] == [];
    assert FromBytes([a]) == a;
    assert FromBytes([a, b]) == a * 256 + b;
    assert FromBytes([a, b, c]) == (a * 256 + b) * 256 + c;
    assert Power256(1) == 256 && Power256(2) == 0x1_0000 && Power256(3) == 0x100_0000 && Power256(4) == 0x1_0000_0000;
  }

  /** Four bytes give the number back; read as signed, exactly below two to the 31. */
  lemma WordRoundTrip(n: nat)
    requires n < 0x1_0000_0000
    ensures FromBytes(ToBytes4(n).value) == n
    ensures FromBytesSigned(ToBytes4(n).value) == n <==> n < 0x8000_0000
  {
    FourBytes(n / 0x100_0000, n / 0x1_0000 % 256, n / 0x100 % 256, n % 256);
    Digits(n);
  }

  lemma Digits(n: nat)
    ensures ((n / 0x100_0000 * 256 + n / 0x1_0000 % 256) * 256 + n / 0x100 % 256) * 256 + n % 256 == n
    ensures n / 0x100_0000 >= 128 <==> n >= 0x8000_0000
  {
    assert n == n / 0x100 * 256 + n % 256;
    assert n / 0x100 == n / 0x1_0000 * 256 + n / 0x100 % 256;
    assert n / 0x1_0000 == n / 0x100_0000 * 256 + n / 0x1_0000 % 256;
  }

  lemma FromPrefix(a: seq<byte>, b: seq<byte>)
    ensures From(a + b, |a|) == b
  {
  }

  lemma SlicePrefix(a: seq<byte>, b: seq<byte>)
    ensures Slice(a + b, 0, |a|) == a
  {
  }

  lemma SliceMiddle(a: seq<byte>, b: seq<byte>, c: seq<byte>)
    ensures Slice(a + b + c, |a|, |a| + |b|) == b
  {
  }

  /** The flags of a proper header are the ones the readers look for. */
  lemma HeaderFlags(header: seq<byte>, sequence: seq<byte>)
    requires ProperHeader(header, sequence)
    ensures |header| >= 4 && |header| == header[0] % 16 * 4
    ensures HasEvent(Flags(header)) && |sequence| == if HasSequence(Flags(header)) then 4 else 0
  {
  }

  /** The body of a built frame starts at its event word. */
  lemma BodyOfFrame(header: seq<byte>, sequence: seq<byte>, body: seq<byte>)
    requires ProperHeader(header, sequence)
    ensures Body(header + sequence + body) == body
    ensures Flags(header + sequence + body) == Flags(header)
  {
    hide ProperHeader, HasSequence, HasEvent;
    HeaderFlags(header, sequence);
    var data := header + sequence + body;
    assert data == header + (sequence + body);
    assert data[0] == header[0] && data[1] == header[1];
    FromPrefix(header, sequence + body);
    FromPrefix(sequence, body);
  }

  /** The reader finds the event, as much of the id as its character count says, and, for an ASCII id, the payload. */
  lemma BodyRoundTrip(event: nat, idSize: nat, id: seq<byte>, payload: seq<byte>)
    requires event < 0x1_0000_0000 && idSize < 0x8000_0000 && |payload| < 0x1_0000_0000
    requires idSize <= |id|
    ensures
      var body := ToBytes4(event).value + ToBytes4(idSize).value + id + ToBytes4(|payload|).value + payload;
      && ReadBody(body).event == event
      && ReadBody(body).sessionID == id[..idSize]
      && (idSize == |id| ==> ReadBody(body).payload == payload)
  {
    hide FromBytes, FromBytesSigned, From, Slice, ToBytes4;
    var e, n, p := ToBytes4(event).value, ToBytes4(idSize).value, ToBytes4(|payload|).value;
    var body := e + n + id + p + payload;
    var tail := id + p + payload;
    assert |e| == 4 && |n| == 4 && |p| == 4;
    WordRoundTrip(event);
    WordRoundTrip(idSize);
    WordRoundTrip(|payload|);
    assert body == e + (n + tail);
    SlicePrefix(e, n + tail);
    FromPrefix(e, n + tail);
    SlicePrefix(n, tail);
    var head, rest := id[..idSize], id[idSize..] + p + payload;
    assert n + tail == n + head + rest;
    SliceMiddle(n, head, rest);
    FromPrefix(n + head, rest);
    if idSize == |id| {
      assert rest == p + payload;
      SlicePrefix(p, payload);
      assert p + payload == p + payload + [];
      SliceMiddle(p, payload, []);
    }
  }

  /**
   Whatever the header length and with or without a sequence word, a frame for an id of fewer than
   2^31 characters is read back to its event, and to its id and payload if and only if the id is ASCII
   (for the id) and whenever it is (for the payload).
   */
  lemma FrameRoundTrip(header: seq<byte>, sequence: seq<byte>, event: nat, sessionID: string, payload: seq<byte>)
    requires ProperHeader(header, sequence) && |sessionID| < 0x8000_0000
    requires BuildFrame(header, sequence, event, sessionID, payload).Some?
    ensures
      var data := BuildFrame(header, sequence, event, sessionID, payload).value;
      var read := ReadBody(Body(data));
      && read.event == event
      && ParseEventNum(data) == Some(event)
      && (read.sessionID == Encode(sessionID) <==> Ascii(sessionID))
      && (Ascii(sessionID) ==> read.payload == payload)
      && (ExtractTextEvent(data) ==
          if header[1] / 16 == SERVER_FULL_RESPONSE && event == ASR_RESULT_EVENT then Some(read) else None)
  {
    hide FromBytes, Slice, From, ToBytes4, Encode, ReadBody, Body, ParseEventNum, ProperHeader;
    var id := Encode(sessionID);
    var body := ToBytes4(event).value + ToBytes4(|sessionID|).value + id + ToBytes4(|payload|).value + payload;
    var data := BuildFrame(header, sequence, event, sessionID, payload).value;
    assert data == header + sequence + body;
    AsciiLength(sessionID);
    BodyOfFrame(header, sequence, body);
    BodyRoundTrip(event, |sessionID|, id, payload);
    assert id[..|sessionID|] == id <==> |sessionID| == |id|;
    ParseBuiltFrame(header, sequence, event, body[4..]);
    assert body == ToBytes4(event).value + body[4..];
    HeaderBytes(header, sequence, body);
  }

  /** An id of one letter that takes two bytes: only the first byte is read back. */
  lemma NonAsciiIdIsCut(header: seq<byte>, event: nat, payload: seq<byte>)
    requires ProperHeader(header, []) && BuildFrame(header, [], event, "\U{00E9}", payload).Some?
    ensures
      var data := BuildFrame(header, [], event, "\U{00E9}", payload).value;
      Encode("\U{00E9}") == [0xC3, 0xA9] && ReadBody(Body(data)).sessionID == [0xC3]
  {
    hide FromBytes, Slice, From, ToBytes4, ReadBody, Body, ProperHeader;
    var id := Encode("\U{00E9}");
    assert "\U{00E9}"[1..] == "" && id == EncodeChar('\U{00E9}') + [];
    var body := ToBytes4(event).value + ToBytes4(1).value + id + ToBytes4(|payload|).value + payload;
    assert BuildFrame(header, [], event, "\U{00E9}", payload).value == header + [] + body;
    BodyOfFrame(header, [], body);
    BodyRoundTrip(event, 1, id, payload);
    assert id[..1] == [0xC3];
  }

  /** The size of an id is signed: read as -4, it leads back to itself, and the payload's size is read from it. */
  lemma NegativeSizeStepsBack(event: nat, tail: seq<byte>)
    requires event < 0x1_0000_0000 && |tail| < 0xFFFF_FFFC
    ensures
      var size: seq<byte> := [0xFF, 0xFF, 0xFF, 0xFC];
      ReadBody(ToBytes4(event).value + size + tail) == Extracted(event, [], tail)
  {
    hide FromBytes, FromBytesSigned, ToBytes4;
    var e := ToBytes4(event).value;
    var size: seq<byte> := [0xFF, 0xFF, 0xFF, 0xFC];
    var body := e + size + tail;
    FourBytes(0xFF, 0xFF, 0xFF, 0xFC);
    WordRoundTrip(event);
    assert Slice(body, 0, 4) == e && From(body, 4) == size + tail;
    assert Slice(size + tail, 0, 4) == size && From(size + tail, 0) == size + tail;
    assert Slice(size + tail, 4, 4 + 0xFFFF_FFFC) == tail;
  }

  lemma HeaderBytes(header: seq<byte>, sequence: seq<byte>, body: seq<byte>)
    requires ProperHeader(header, sequence)
    ensures |header| >= 4 && (header + sequence + body)[1] == header[1] && HasEvent(Flags(header + sequence + body))
  {
    hide ProperHeader, HasSequence, HasEvent;
    HeaderFlags(header, sequence);
  }

  /** The event reader alone, on a built frame. */
  lemma ParseBuiltFrame(header: seq<byte>, sequence: seq<byte>, event: nat, tail: seq<byte>)
    requires ProperHeader(header, sequence) && event < 0x1_0000_0000 && |tail| >= 8
    ensures ParseEventNum(header + sequence + (ToBytes4(event).value + tail)) == Some(event)
  {
    hide FromBytes, ToBytes4, ProperHeader;
    HeaderFlags(header, sequence);
    var word := ToBytes4(event).value;
    var data := header + sequence + (word + tail);
    assert data[0] == header[0] && data[1] == header[1];
    var offset := |header| + |sequence|;
    assert data[offset..offset + 4] == word;
    WordRoundTrip(event);
  }

  /** Without the event flag no reader finds an event, and nothing is dropped. */
  lemma NoEventFlagNoEvent(data: seq<byte>, active: bool)
    requires |data| >= 2 && data[1] % 16 in {0, 1, 2, 3, 8, 9, 10, 11}
    ensures ParseEventNum(data) == None && ExtractTextEvent(data) == None && !ShouldDropDupTtsEnd(data, active)
  {
    hide FromBytes, ReadBody, Body;
  }

  /** Three frames with an event word of 359: after a plain header, behind a sequence word, and without the flag. */
  lemma SmallFrames(sequence: seq<byte>)
    requires |sequence| == 4
    ensures ParseEventNum([0x11, 0x14, 0, 0] + [0, 0, 1, 103] + [0]) == Some(359)
    ensures ParseEventNum([0x11, 0x15, 0, 0] + sequence + [0, 0, 1, 103] + [0]) == Some(359)
    ensures ParseEventNum([0x11, 0x10, 0, 0] + [0, 0, 1, 103] + [0]) == None
  {
    FourBytes(0, 0, 1, 103);
    var plain: seq<byte> := [0x11, 0x14, 0, 0] + [0, 0, 1, 103] + [0];
    var numbered: seq<byte> := [0x11, 0x15, 0, 0] + sequence + [0, 0, 1, 103] + [0];
    assert plain[4..8] == [0, 0, 1, 103] && numbered[8..12] == [0, 0, 1, 103];
  }

  // ---------- the two readers agree on every input ----------

  /** Both readers see the same event number, on any bytes, built by this writer or not. */
  lemma ReadersAgree(data: seq<byte>)
    ensures ParseEventNum(data).Some? ==> ParseEventNum(data).value == ReadBody(Body(data)).event
    ensures ExtractTextEvent(data).Some? && |data| > 8 && |data| > data[0] % 16 * 4 + 8 ==>
            ParseEventNum(data) == Some(ASR_RESULT_EVENT)
  {
    hide FromBytes, FromBytesSigned, HasSequence, HasEvent, From, Slice;
    if |data| > 8 {
      var start := data[0] % 16 * 4;
      var skip := if HasSequence(Flags(data)) then 4 else 0;
      if |data| > start + skip + 4 {
        WordAt(data, start, skip);
      }
    }
  }

  lemma WordAt(data: seq<byte>, start: nat, skip: nat)
    requires start + skip + 4 <= |data|
    ensures Slice(From(From(data, start), skip), 0, 4) == data[start + skip..start + skip + 4]
  {
    assert From(data, start) == data[start..];
    assert From(data[start..], skip) == data[start + skip..];
  }

  /** A frame with the end-of-speech event is dropped exactly when no generation is active; no other frame is. */
  lemma DropsExactlyDuplicateEnds(header: seq<byte>, sequence: seq<byte>, event: nat, sessionID: string,
                                  payload: seq<byte>, active: bool)
    requires ProperHeader(header, sequence) && |sessionID| < 0x8000_0000
    requires BuildFrame(header, sequence, event, sessionID, payload).Some?
    ensures ShouldDropDupTtsEnd(BuildFrame(header, sequence, event, sessionID, payload).value, active)
            <==> event == TTS_ENDED_EVENT && !active
  {
    hide BuildFrame, ReadBody, ParseEventNum, ExtractTextEvent;
    FrameRoundTrip(header, sequence, event, sessionID, payload);
  }
}
