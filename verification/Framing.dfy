/** Frames on the wire: `$`, the packet's text, `#` and two digits of checksum, and what a receiver
    makes of a stream of characters. */
module Framing {
  import opened Util
  import opened PacketText
  import opened PacketFields

  /** The running checksum is a `char`. */
  function Checksum(body: seq<Byte>): Byte {
    Sum(body) % 256
  }

  const NO_SEQUENCE := -1

  /** A sequence number goes first, as its low eight bits and a colon. */
  function SequenceText(sequence: int): seq<Byte> {
    if sequence == NO_SEQUENCE then [] else HexPair(sequence % 256) + [COLON]
  }

  function FrameOf(body: seq<Byte>, checksum: Byte): seq<Byte> {
    [DOLLAR] + body + [HASH] + HexPair(checksum)
  }

  function Frame(sequence: int, payload: seq<Byte>): seq<Byte> {
    var body := SequenceText(sequence) + payload;
    FrameOf(body, Checksum(body))
  }

  /** A frame in full: `$`, the low eight bits of a sequence number and a colon if there is one, the
      payload, `#`, and the sum of all between as two digits. */
  lemma FrameIsWritten(sequence: int, payload: seq<Byte>)
    ensures var q := sequence % 256;
            var body := (if sequence == -1 then [] else [LOWER[q / 16] as int, LOWER[q % 16] as int, ':' as int]) + payload;
            var x := Sum(body) % 256;
            Frame(sequence, payload) == ['$' as int] + body + ['#' as int] + [LOWER[x / 16] as int, LOWER[x % 16] as int]
  {
    hide HexPair, Sum;
    PairIsWritten(sequence % 256);
    assert sequence != -1 ==>
        SequenceText(sequence) == [LOWER[sequence % 256 / 16] as int, LOWER[sequence % 256 % 16] as int, ':' as int];
    var body := SequenceText(sequence) + payload;
    PairIsWritten(Sum(body) % 256);
  }

  lemma PairIsWritten(b: Byte)
    ensures HexPair(b) == [LOWER[b / 16] as int, LOWER[b % 16] as int]
  {
    NibbleIsWritten(b / 16, 0);
    NibbleIsWritten(b % 16, 0);
  }

  predicate FramingFree(s: seq<Byte>) {
    HASH !in s && DOLLAR !in s
  }

  // ----- The receiver -----

  datatype Phase = Hunting | InBody | FirstDigit | SecondDigit(first: Byte)

  /** `sequence` is the number stored in the packet; it outlives the text. */
  datatype Receiver = Receiver(phase: Phase, body: seq<Byte>, sequence: int)

  datatype Reaction = Reaction(next: Receiver, reply: seq<Byte>, delivered: Option<Cursor>)

  /** The checksum two characters stand for. A second character that is no digit leaves the first
      one's value in place; if the first is none, an uninitialised variable is used: `junk`. */
  function ReceivedChecksum(first: Byte, second: Byte, junk: Byte): Byte {
    if !IsHex(first) then junk
    else
      var high := NibbleToInt(first).value;
      if IsHex(second) then high * 16 + NibbleToInt(second).value else high * 17
  }

  function Acknowledgement(sequence: int): seq<Byte> {
    if sequence == NO_SEQUENCE then [PLUS]
    else [PLUS, IntToNibble(sequence / 16, 0), IntToNibble(sequence % 16, 0)]
  }

  /** Two digits, of either case, give the checksum; a second character that is none counts as the first
      one again. */
  lemma {:induction false} ChecksumIsRead(first: Byte, second: Byte, junk: Byte, a: int, b: int)
    ensures IsDigit(first, a) && IsDigit(second, b) ==> ReceivedChecksum(first, second, junk) == 16 * a + b
    ensures IsDigit(first, a) && !IsAnyDigit(second) ==> ReceivedChecksum(first, second, junk) == 17 * a
    ensures !IsAnyDigit(first) ==> ReceivedChecksum(first, second, junk) == junk
  {
    NibbleIsPosition(first);
    NibbleIsPosition(second);
    hide IsDigit, IsAnyDigit, NibbleToInt;
  }

  /** A delivery is answered with `+` and, once a sequence number has been seen, its two digits. */
  lemma AnswerIsWritten(sequence: Byte)
    ensures Acknowledgement(-1) == ['+' as int]
    ensures Acknowledgement(sequence) == ['+' as int, LOWER[sequence / 16] as int, LOWER[sequence % 16] as int]
  {
    NibbleIsWritten(sequence / 16, 0);
    NibbleIsWritten(sequence % 16, 0);
  }

  /** What `GetPacket` does with one more character. */
  function React(r: Receiver, ch: Byte, ignoreAck: bool, junk: Byte): Reaction {
    match r.phase
    case Hunting =>
      Reaction(if ch == DOLLAR then Receiver(InBody, [], r.sequence) else r, [], None)
    case InBody =>
      Reaction(if ch == HASH then r.(phase := FirstDigit)
               else if ch == DOLLAR then r.(body := [])
               else r.(body := r.body + [ch]), [], None)
    case FirstDigit =>
      Reaction(r.(phase := SecondDigit(ch)), [], None)
    case SecondDigit(first) =>
      var parsed := ReadSequence(Cursor(r.body, 0));
      var sequence := if parsed.sequence.Some? then parsed.sequence.value else r.sequence;
      if ignoreAck then Reaction(Receiver(Hunting, [], sequence), [], Some(parsed.cursor))
      else if ReceivedChecksum(first, ch, junk) == Checksum(r.body) then
        Reaction(Receiver(Hunting, [], sequence), Acknowledgement(sequence), Some(parsed.cursor))
      else Reaction(Receiver(InBody, [], sequence), [MINUS], None)
  }

  /** What one `GetPacket` does with a whole stream: it stops at the first packet it delivers, or
      when the characters run out. `last` is the state it ends in. */
  datatype Reception = Reception(delivered: Option<Cursor>, replies: seq<Byte>, last: Receiver, rest: seq<Byte>)

  function Receive(r: Receiver, input: seq<Byte>, ignoreAck: bool, junk: Byte): Reception
    decreases |input|
  {
    if input == [] then Reception(None, [], r, [])
    else
      var step := React(r, input[0], ignoreAck, junk);
      if step.delivered.Some? then Reception(step.delivered, step.reply, step.next, input[1..])
      else
        var later := Receive(step.next, input[1..], ignoreAck, junk);
        later.(replies := step.reply + later.replies)
  }

  // ----- Frames received -----

  predicate Listening(r: Receiver) {
    r.phase == Hunting || r.phase == InBody
  }

  lemma {:induction false} QuietStep(r: Receiver, ch: Byte, tail: seq<Byte>, ignoreAck: bool, junk: Byte)
    requires React(r, ch, ignoreAck, junk).reply == [] && React(r, ch, ignoreAck, junk).delivered.None?
    ensures Receive(r, [ch] + tail, ignoreAck, junk) == Receive(React(r, ch, ignoreAck, junk).next, tail, ignoreAck, junk)
  {
    assert ([ch] + tail)[1..] == tail;
    var later := Receive(React(r, ch, ignoreAck, junk).next, tail, ignoreAck, junk);
    assert [] + later.replies == later.replies;
  }

  lemma {:induction false} BodyTaken(r: Receiver, p: seq<Byte>, tail: seq<Byte>, ignoreAck: bool, junk: Byte)
    requires r.phase == InBody && FramingFree(p)
    ensures Receive(r, p + tail, ignoreAck, junk) == Receive(r.(body := r.body + p), tail, ignoreAck, junk)
    decreases |p|
  {
    if p == [] {
      assert p + tail == tail && r.body + p == r.body;
    } else {
      assert p + tail == [p[0]] + (p[1..] + tail);
      QuietStep(r, p[0], p[1..] + tail, ignoreAck, junk);
      BodyTaken(r.(body := r.body + [p[0]]), p[1..], tail, ignoreAck, junk);
      assert (r.body + [p[0]]) + p[1..] == r.body + p;
    }
  }

  /** A receiver that listens takes a frame up to its last character, whatever came before. */
  lemma {:induction false} FrameTaken(r: Receiver, body: seq<Byte>, sum: Byte, tail: seq<Byte>, ignoreAck: bool, junk: Byte)
    requires Listening(r) && FramingFree(body)
    ensures var high, low := HexDigit(sum / 16), HexDigit(sum % 16);
            Receive(r, FrameOf(body, sum) + tail, ignoreAck, junk)
            == Receive(Receiver(SecondDigit(high), body, r.sequence), [low] + tail, ignoreAck, junk)
  {
    hide ReadSequence, Checksum;
    var high, low := HexDigit(sum / 16), HexDigit(sum % 16);
    var afterBody := [HASH] + ([high] + ([low] + tail));
    assert FrameOf(body, sum) + tail == [DOLLAR] + (body + afterBody);
    QuietStep(r, DOLLAR, body + afterBody, ignoreAck, junk);
    var inBody := Receiver(InBody, [], r.sequence);
    BodyTaken(inBody, body, afterBody, ignoreAck, junk);
    assert [] + body == body;
    QuietStep(inBody.(body := body), HASH, [high] + ([low] + tail), ignoreAck, junk);
    QuietStep(Receiver(FirstDigit, body, r.sequence), high, [low] + tail, ignoreAck, junk);
  }

  lemma ChecksumRead(sum: Byte, junk: Byte)
    ensures ReceivedChecksum(HexDigit(sum / 16), HexDigit(sum % 16), junk) == sum
  {
    HexDigitReadsBack(sum / 16);
    HexDigitReadsBack(sum % 16);
  }

  /** What the receiver has stored once it has looked for a sequence number in `body`. */
  function SequenceAfter(body: seq<Byte>, before: int): int {
    if LooksSequenced(body) then NibbleToInt(body[0]).value * 16 + NibbleToInt(body[1]).value else before
  }

  /** A frame whose checksum is right is delivered and acknowledged. */
  lemma {:induction false} GoodFrameDelivered(r: Receiver, body: seq<Byte>, tail: seq<Byte>, ignoreAck: bool, junk: Byte)
    requires Listening(r) && FramingFree(body)
    ensures var sequence := SequenceAfter(body, r.sequence);
            Receive(r, FrameOf(body, Checksum(body)) + tail, ignoreAck, junk)
            == Reception(Some(ReadSequence(Cursor(body, 0)).cursor), if ignoreAck then [] else Acknowledgement(sequence),
                         Receiver(Hunting, [], sequence), tail)
  {
    var sum := Checksum(body);
    FrameTaken(r, body, sum, tail, ignoreAck, junk);
    ChecksumRead(sum, junk);
    SequenceFoundIff(body);
    assert ([HexDigit(sum % 16)] + tail)[1..] == tail;
  }

  /** A frame whose checksum is wrong is answered with `-`, and its text is forgotten; but a
      sequence number found in it stays. */
  lemma {:induction false} BadFrameRefused(r: Receiver, body: seq<Byte>, sum: Byte, tail: seq<Byte>, junk: Byte)
    requires Listening(r) && FramingFree(body) && sum != Checksum(body)
    ensures var later := Receive(Receiver(InBody, [], SequenceAfter(body, r.sequence)), tail, false, junk);
            Receive(r, FrameOf(body, sum) + tail, false, junk) == later.(replies := [MINUS] + later.replies)
  {
    FrameTaken(r, body, sum, tail, false, junk);
    ChecksumRead(sum, junk);
    SequenceFoundIff(body);
    assert ([HexDigit(sum % 16)] + tail)[1..] == tail;
  }

  // ----- What sending and receiving preserve -----

  lemma SumOfConcat(a: seq<Byte>, b: seq<Byte>)
    ensures Sum(a + b) == Sum(a) + Sum(b)
    decreases |b|
  {
    if b == [] {
      assert a + b == a;
    } else {
      assert (a + b)[..|a + b| - 1] == a + b[..|b| - 1];
      SumOfConcat(a, b[..|b| - 1]);
    }
  }

  /** Changing one character always changes the checksum. */
  lemma {:induction false} OneChangeDetected(p: seq<Byte>, i: nat, x: Byte)
    requires i < |p| && x != p[i]
    ensures Checksum(p[i := x]) != Checksum(p)
  {
    var front, back := p[..i], p[i + 1..];
    assert p == front + ([p[i]] + back);
    assert p[i := x] == front + ([x] + back);
    hide Sum;
    SumAround(front, p[i], back);
    SumAround(front, x, back);
    FarFromMultiple(Sum(p), Sum(p[i := x]));
  }

  lemma SumAround(front: seq<Byte>, x: Byte, back: seq<Byte>)
    ensures Sum(front + ([x] + back)) == Sum(front) + x + Sum(back)
  {
    SumOfConcat(front, [x] + back);
    SumOfConcat([x], back);
    assert Sum([x]) == x;
    hide Sum;
  }

  lemma FarFromMultiple(a: nat, b: nat)
    requires a != b && -256 < a - b < 256
    ensures a % 256 != b % 256
  {
  }

  /** A payload without a sequence number arrives with everything in it readable again, whatever
      the receiver was listening to before. */
  lemma {:induction false} PlainPayloadArrives(r: Receiver, payload: seq<Byte>, tail: seq<Byte>, ignoreAck: bool, junk: Byte)
    requires Listening(r) && FramingFree(payload) && !LooksSequenced(payload)
    ensures var got := Receive(r, Frame(NO_SEQUENCE, payload) + tail, ignoreAck, junk);
            && got.delivered.Some? && got.delivered.value.Valid()
            && got.delivered.value.pos == 0
            && Unread(got.delivered.value) == Unread(Cursor(payload, 0))
            && got.replies == (if ignoreAck then [] else Acknowledgement(r.sequence))
            && got.last.sequence == r.sequence
            && got.rest == tail
  {
    assert [] + payload == payload;
    GoodFrameDelivered(r, payload, tail, ignoreAck, junk);
    SequenceFoundIff(payload);
    NoSequenceKeepsText(payload);
  }

  /** With a sequence number, the receiver gets its low eight bits, and the payload is what remains
      to be read. */
  lemma {:induction false} SequencedPayloadArrives(r: Receiver, sequence: int, payload: seq<Byte>, tail: seq<Byte>,
                                                  ignoreAck: bool, junk: Byte)
    requires Listening(r) && FramingFree(payload) && sequence != NO_SEQUENCE
    ensures var got := Receive(r, Frame(sequence, payload) + tail, ignoreAck, junk);
            && got.delivered.Some? && got.delivered.value.Valid()
            && got.delivered.value.Rest() == payload
            && got.last.sequence == sequence % 256
            && got.replies == (if ignoreAck then [] else [PLUS] + HexPair(sequence % 256))
            && got.rest == tail
  {
    var low := sequence % 256;
    var body := SequenceText(sequence) + payload;
    HexDigitReadsBack(low / 16);
    HexDigitReadsBack(low % 16);
    assert body[0] == HexDigit(low / 16) && body[1] == HexDigit(low % 16) && body[2] == COLON;
    assert FramingFree(body);
    GoodFrameDelivered(r, body, tail, ignoreAck, junk);
    SequenceFoundIff(body);
    assert body[3..] == payload;
  }

  /** Noise that holds no `#` leaves a receiver listening, with nothing said or stored. */
  lemma {:induction false} NoiseIgnored(r: Receiver, noise: seq<Byte>, tail: seq<Byte>, ignoreAck: bool, junk: Byte)
    returns (after: Receiver)
    requires Listening(r) && HASH !in noise
    ensures Listening(after) && after.sequence == r.sequence
    ensures Receive(r, noise + tail, ignoreAck, junk) == Receive(after, tail, ignoreAck, junk)
    decreases |noise|
  {
    if noise == [] {
      assert noise + tail == tail;
      after := r;
    } else {
      assert noise + tail == [noise[0]] + (noise[1..] + tail);
      QuietStep(r, noise[0], noise[1..] + tail, ignoreAck, junk);
      after := NoiseIgnored(React(r, noise[0], ignoreAck, junk).next, noise[1..], tail, ignoreAck, junk);
    }
  }

  /** A frame is recovered behind any noise without `#`, a truncated frame for instance. */
  lemma {:induction false} ResynchronizesAfterNoise(r: Receiver, noise: seq<Byte>, payload: seq<Byte>, tail: seq<Byte>, junk: Byte)
    requires Listening(r) && HASH !in noise && FramingFree(payload) && !LooksSequenced(payload)
    ensures var got := Receive(r, noise + (Frame(NO_SEQUENCE, payload) + tail), false, junk);
            && got.delivered.Some? && got.delivered.value.Valid()
            && Unread(got.delivered.value) == Unread(Cursor(payload, 0))
            && got.replies == Acknowledgement(r.sequence)
            && got.rest == tail
  {
    var after := NoiseIgnored(r, noise, Frame(NO_SEQUENCE, payload) + tail, false, junk);
    PlainPayloadArrives(after, payload, tail, false, junk);
  }
}
