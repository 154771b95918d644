/** A session sends and receives packets over a transport, one character at a time. */
module Sessions {
  import opened Util
  import opened PacketText
  import opened PacketFields
  import opened Packets
  import opened Framing

  /** One end of a connection: the characters that will still arrive, and those written so far.
      Reading past the last one fails, as it does once the connection is lost. */
  class Transport {
    var incoming: seq<Byte>
    var outgoing: seq<Byte>
    var up: bool
    const writable: bool

    constructor (incoming: seq<Byte>, writable: bool)
      ensures this.incoming == incoming && outgoing == [] && up && this.writable == writable
    {
      this.incoming, outgoing, up := incoming, [], true;
      this.writable := writable;
    }

    ghost function Arriving(): seq<Byte>
      reads this
    {
      if up then incoming else []
    }

    method Read() returns (ok: bool, ch: Byte)
      modifies `incoming
      ensures ok <==> old(Arriving()) != []
      ensures ok ==> [ch] + incoming == old(incoming)
      ensures !ok ==> incoming == old(incoming)
    {
      if !up || incoming == [] {
        return false, 0;
      }
      ch := incoming[0];
      incoming := incoming[1..];
      ok := true;
    }

    method Write(bytes: seq<Byte>) returns (ok: bool)
      modifies `outgoing
      ensures ok <==> up && writable
      ensures outgoing == old(outgoing) + if ok then bytes else []
    {
      ok := up && writable;
      if ok {
        outgoing := outgoing + bytes;
      } else {
        assert outgoing + [] == outgoing;
      }
    }

    method Disconnect()
      modifies `up
      ensures !up
    {
      up := false;
    }
  }

  function Copies(frame: seq<Byte>, n: nat): seq<Byte> {
    if n == 0 then [] else frame + Copies(frame, n - 1)
  }

  lemma NoCopies(out: seq<Byte>, frame: seq<Byte>)
    ensures out + Copies(frame, 0) == out
  {
  }

  lemma CopiesSnoc(frame: seq<Byte>, n: nat)
    ensures Copies(frame, n + 1) == Copies(frame, n) + frame
  {
    if n == 0 {
      assert frame + [] == [] + frame;
    } else {
      CopiesSnoc(frame, n - 1);
      assert frame + (Copies(frame, n - 1) + frame) == (frame + Copies(frame, n - 1)) + frame;
    }
  }

  lemma OneMoreCopy(out: seq<Byte>, frame: seq<Byte>, n: nat)
    ensures (out + Copies(frame, n)) + frame == out + Copies(frame, n + 1)
    ensures (out + Copies(frame, n)) + [] == out + Copies(frame, n)
  {
    hide Copies;
    CopiesSnoc(frame, n);
  }

  /** How a send with acknowledgements goes: how many copies of the frame are sent, and how many of
      the arriving characters are taken for an answer. */
  datatype Sending = Sending(ok: bool, copies: nat, taken: nat)

  function SendUntilPlus(incoming: seq<Byte>): Sending {
    if incoming == [] then Sending(false, 1, 0)
    else if incoming[0] == PLUS then Sending(true, 1, 1)
    else
      var later := SendUntilPlus(incoming[1..]);
      Sending(later.ok, later.copies + 1, later.taken + 1)
  }

  /** How a send goes on when the first `n` answers have asked for another copy. */
  lemma {:induction false} SendingGoesOn(incoming: seq<Byte>, n: nat)
    requires n <= |incoming| && PLUS !in incoming[..n]
    ensures n == |incoming| ==> SendUntilPlus(incoming) == Sending(false, n + 1, n)
    ensures n < |incoming| && incoming[n] == PLUS ==> SendUntilPlus(incoming) == Sending(true, n + 1, n + 1)
    decreases n
  {
    if n > 0 {
      assert incoming[0] == incoming[..n][0];
      assert incoming[1..][..n - 1] == incoming[..n][1..];
      SendingGoesOn(incoming[1..], n - 1);
    }
  }

  lemma DropOne(s: seq<Byte>, n: nat)
    requires n < |s|
    ensures s[n..] != [] && s[n..][0] == s[n] && s[n..][1..] == s[n + 1..] && s[..n + 1] == s[..n] + [s[n]]
  {
  }

  /** A send succeeds exactly when a `+` arrives; every character before the first one costs another
      copy, and no character behind it is taken. */
  lemma {:induction false} SendingTakesFirstPlus(incoming: seq<Byte>)
    ensures var s := SendUntilPlus(incoming);
            && (s.ok <==> PLUS in incoming)
            && s.taken <= |incoming|
            && (s.ok ==> s.copies == s.taken > 0 && incoming[s.taken - 1] == PLUS && PLUS !in incoming[..s.taken - 1])
            && (!s.ok ==> s.taken == |incoming| && s.copies == s.taken + 1)
    decreases |incoming|
  {
    if incoming != [] && incoming[0] != PLUS {
      SendingTakesFirstPlus(incoming[1..]);
      var s := SendUntilPlus(incoming);
      if s.ok {
        assert incoming[..s.taken - 1] == [incoming[0]] + incoming[1..][..s.taken - 2];
      } else {
        assert incoming == [incoming[0]] + incoming[1..];
      }
    }
  }

  /** The stream of a frame, with its checksum kept while it is written. */
  method WriteFrame(sequence: int, payload: seq<Byte>) returns (outstr: seq<Byte>)
    ensures outstr == Frame(sequence, payload)
  {
    hide Checksum, SequenceText;
    var xsum: Byte;
    outstr, xsum := WriteHead(sequence);
    ghost var head := SequenceText(sequence);
    assert head + payload[..0] == head;
    for offs := 0 to |payload|
      invariant outstr == [DOLLAR] + (head + payload[..offs])
      invariant xsum == Checksum(head + payload[..offs])
    {
      var ch := payload[offs];
      SumOfNext(head, payload, offs);
      outstr := outstr + [ch];
      xsum := (xsum + ch) % 256;
    }
    assert payload[..|payload|] == payload;
    outstr := outstr + [HASH] + [IntToNibble(xsum / 16, 0)] + [IntToNibble(xsum % 16, 0)];
    assert outstr == [DOLLAR] + (head + payload) + [HASH] + HexPair(xsum);
  }

  /** `$`, and the sequence number if there is one. */
  method WriteHead(sequence: int) returns (outstr: seq<Byte>, xsum: Byte)
    ensures outstr == [DOLLAR] + SequenceText(sequence)
    ensures xsum == Checksum(SequenceText(sequence))
  {
    hide Checksum;
    outstr := [DOLLAR];
    xsum := 0;
    NothingSummed();
    if sequence != NO_SEQUENCE {
      var high := IntToNibble(sequence % 256 / 16, 0);
      var low := IntToNibble(sequence % 16, 0);
      outstr := outstr + [high] + [low] + [COLON];
      xsum := (xsum + high) % 256;
      xsum := (xsum + low) % 256;
      xsum := (xsum + COLON) % 256;
      SumOfThree(high, low, COLON);
      LowNibble(sequence);
      assert SequenceText(sequence) == [high, low, COLON];
    }
  }

  /** What a write puts on the wire. */
  function Sent(writable: bool, bytes: seq<Byte>): seq<Byte> {
    if writable then bytes else []
  }

  lemma SentNothing(out: seq<Byte>, writable: bool)
    ensures out + Sent(writable, []) == out
  {
  }

  lemma SentBoth(out: seq<Byte>, writable: bool, a: seq<Byte>, b: seq<Byte>)
    ensures (out + Sent(writable, a)) + Sent(writable, b) == out + Sent(writable, a + b)
  {
    if writable {
      assert (out + a) + b == out + (a + b);
    }
  }

  class Session {
    const io: Transport
    var ignoreAck: bool
    var useSequence: bool
    var nextSequence: Byte
    var connected: bool

    constructor (transport: Transport)
      ensures io == transport && !ignoreAck && !useSequence && nextSequence == 0 && connected
    {
      io := transport;
      ignoreAck, useSequence, nextSequence, connected := false, false, 0, true;
    }

    method GetChar() returns (ok: bool, ch: Byte)
      modifies io`incoming, io`up, `connected
      ensures ok <==> old(io.Arriving()) != []
      ensures io.outgoing == old(io.outgoing)
      ensures ok ==> [ch] + io.incoming == old(io.incoming) && io.up && connected == old(connected)
      ensures !ok ==> io.incoming == old(io.incoming) && !io.up && !connected
    {
      ok, ch := io.Read();
      if !ok {
        io.Disconnect();
        connected := false;
      }
    }

    /** The sequence number a packet is sent with: its own, or the session's next one. */
    ghost function SequenceFor(pkt: Packet): int
      reads this, pkt
    {
      if pkt.sequence == NO_SEQUENCE && useSequence then nextSequence else pkt.sequence
    }

    method SendPacketOnly(pkt: Packet) returns (ok: bool)
      requires pkt.Valid()
      modifies io`outgoing, pkt`sequence, `nextSequence
      ensures pkt.Valid() && pkt.View() == old(pkt.View()) && pkt.sequence == old(SequenceFor(pkt))
      ensures nextSequence
              == if old(pkt.sequence == NO_SEQUENCE && useSequence) then (old(nextSequence) + 1) % 256 else old(nextSequence)
      ensures ok <==> io.up && io.writable
      ensures io.outgoing == old(io.outgoing) + if ok then Frame(pkt.sequence, pkt.Text()) else []
    {
      hide Frame;
      if pkt.sequence == NO_SEQUENCE && useSequence {
        pkt.sequence := nextSequence;
        nextSequence := (nextSequence + 1) % 256;
      }
      var outstr := WriteFrame(pkt.sequence, pkt.data[..pkt.writeIndex]);
      ok := io.Write(outstr);
    }

    /** One round of `SendPacket`: a copy is sent and, unless that is off, an answer awaited. */
    method SendOnce(pkt: Packet) returns (ok: bool, again: bool)
      requires pkt.Valid()
      modifies io, pkt`sequence, `nextSequence, `connected
      ensures pkt.Valid() && pkt.View() == old(pkt.View())
      ensures pkt.sequence == old(SequenceFor(pkt)) == SequenceFor(pkt)
      ensures io.outgoing == old(io.outgoing) + Sent(old(io.up) && io.writable, Frame(pkt.sequence, pkt.Text()))
      ensures var polls := old(io.up) && io.writable && !ignoreAck;
              var got := polls && old(io.incoming) != [];
              && io.incoming == (if got then old(io.incoming)[1..] else old(io.incoming))
              && ok == (old(io.up) && io.writable && (ignoreAck || got))
              && again == (got && old(io.incoming)[0] != PLUS)
              && (ok ==> io.up)
    {
      hide Frame;
      again := false;
      ok := SendPacketOnly(pkt);
      if !ok || ignoreAck {
        return;
      }
      ghost var before := io.incoming;
      var ch;
      ok, ch := GetChar();
      if ok {
        assert before[1..] == ([ch] + io.incoming)[1..] == io.incoming;
        again := ch != PLUS;
      }
    }

    /** Sends until a `+` comes back; every other character asks for another copy. */
    method SendPacket(pkt: Packet) returns (ok: bool)
      requires pkt.Valid()
      modifies io, pkt`sequence, `nextSequence, `connected
      ensures pkt.Valid() && pkt.View() == old(pkt.View()) && pkt.sequence == old(SequenceFor(pkt))
      ensures var s := if !old(io.up) || !io.writable then Sending(false, 0, 0)
                       else if ignoreAck then Sending(true, 1, 0)
                       else SendUntilPlus(old(io.incoming));
              && ok == s.ok
              && s.taken <= |old(io.incoming)|
              && io.incoming == old(io.incoming)[s.taken..]
              && io.outgoing == old(io.outgoing) + Copies(Frame(pkt.sequence, pkt.Text()), s.copies)
              && (ok ==> io.up)
    {
      hide Frame, Copies, SendUntilPlus;
      ghost var frame, arriving, n: nat := Frame(SequenceFor(pkt), pkt.Text()), io.incoming, 0;
      NoCopies(io.outgoing, frame);
      while true
        invariant pkt.Valid() && pkt.View() == old(pkt.View()) && SequenceFor(pkt) == old(SequenceFor(pkt))
        invariant io.up == old(io.up) && (n > 0 ==> io.up && io.writable && !ignoreAck)
        invariant n <= |arriving| && io.incoming == arriving[n..] && PLUS !in arriving[..n]
        invariant io.outgoing == old(io.outgoing) + Copies(frame, n)
        decreases |io.incoming|
      {
        OneMoreCopy(old(io.outgoing), frame, n);
        SendingGoesOn(arriving, n);
        if n < |arriving| {
          DropOne(arriving, n);
        }
        var again;
        ok, again := SendOnce(pkt);
        if !again {
          return;
        }
        n := n + 1;
      }
    }

    /** Discards characters up to the next `$`. */
    method AwaitStart(ghost sequence: int, ghost junk: Byte) returns (ok: bool)
      modifies io`incoming, io`up, `connected
      ensures var start := Receiver(Hunting, [], sequence);
              Receive(start, old(io.Arriving()), ignoreAck, junk)
              == if ok then Receive(start.(phase := InBody), io.Arriving(), ignoreAck, junk)
                 else Reception(None, [], start, [])
      ensures |io.incoming| <= |old(io.incoming)|
      ensures if ok then io.up else !io.up && !connected
    {
      ghost var start := Receiver(Hunting, [], sequence);
      ghost var goal := Receive(start, io.Arriving(), ignoreAck, junk);
      while true
        invariant goal == Receive(start, io.Arriving(), ignoreAck, junk)
        invariant |io.incoming| <= |old(io.incoming)|
        decreases |io.incoming|
      {
        ghost var before := io.Arriving();
        var ch;
        ok, ch := GetChar();
        if !ok {
          return;
        }
        assert before == [ch] + io.Arriving();
        QuietStep(start, ch, io.Arriving(), ignoreAck, junk);
        if ch == DOLLAR {
          return;
        }
      }
    }

    /** Collects the text up to `#`, starting over at every `$`. */
    method ReadBody(pkt: Packet, ghost junk: Byte) returns (ok: bool, xsum: Byte)
      requires pkt.Valid()
      modifies io`incoming, io`up, pkt, `connected
      ensures pkt.Valid() && pkt.sequence == old(pkt.sequence) && pkt.readIndex == 0
      ensures |io.incoming| <= |old(io.incoming)|
      ensures xsum == Checksum(pkt.Text())
      ensures Receive(Receiver(InBody, [], pkt.sequence), old(io.Arriving()), ignoreAck, junk)
              == if ok then Receive(Receiver(FirstDigit, pkt.Text(), pkt.sequence), io.Arriving(), ignoreAck, junk)
                 else Reception(None, [], Receiver(InBody, pkt.Text(), pkt.sequence), [])
      ensures if ok then io.up else !io.up && !connected
    {
      hide Checksum, Receive;
      ghost var goal := Receive(Receiver(InBody, [], pkt.sequence), io.Arriving(), ignoreAck, junk);
      NothingSummed();
      pkt.Clear();
      xsum := 0;
      while true
        invariant pkt.Valid() && pkt.sequence == old(pkt.sequence) && pkt.readIndex == 0
        invariant |io.incoming| <= |old(io.incoming)|
        invariant xsum == Checksum(pkt.Text())
        invariant goal == Receive(Receiver(InBody, pkt.Text(), pkt.sequence), io.Arriving(), ignoreAck, junk)
        decreases |io.incoming|
      {
        ghost var before, r := io.Arriving(), Receiver(InBody, pkt.Text(), pkt.sequence);
        var ch;
        ok, ch := GetChar();
        if !ok {
          NothingReceived(r, ignoreAck, junk);
          return;
        }
        assert before == [ch] + io.Arriving();
        QuietStep(r, ch, io.Arriving(), ignoreAck, junk);
        if ch == HASH {
          return;
        }
        if ch == DOLLAR {
          pkt.Clear();
          xsum := 0;
        } else {
          SumOfLast(r.body, ch);
          xsum := (xsum + ch) % 256;
          pkt.AddRawChar(ch);
        }
      }
    }

    /** The two checksum digits. */
    method ReadChecksum(junk: Byte) returns (ok: bool, sum: Byte, ghost first: Byte, ghost second: Byte)
      modifies io`incoming, io`up, `connected
      ensures |io.incoming| <= |old(io.incoming)|
      ensures ok ==> [first, second] + io.Arriving() == old(io.Arriving()) && sum == ReceivedChecksum(first, second, junk)
      ensures !ok ==> |old(io.Arriving())| < 2
      ensures if ok then io.up else !io.up && !connected
    {
      first, second := 0, 0;
      sum := junk;
      var ch, val;
      ok, ch := GetChar();
      if !ok {
        return;
      }
      first := ch;
      ghost var rest := io.Arriving();
      assert old(io.Arriving()) == [first] + rest;
      var nibble := NibbleToInt(ch);
      ok, ch := GetChar();
      if !ok {
        return;
      }
      second := ch;
      assert rest == [second] + io.Arriving();
      assert [first] + ([second] + io.Arriving()) == [first, second] + io.Arriving();
      if nibble.Some? {
        val := nibble.value;
        sum := val * 16;
        if NibbleToInt(ch).Some? {
          val := NibbleToInt(ch).value;
        }
        sum := sum + val;
      }
    }

    /** `junk` is what the local variable that receives the checksum digits happens to hold. */
    method GetPacket(pkt: Packet, junk: Byte) returns (ok: bool)
      requires pkt.Valid()
      modifies io`incoming, io`outgoing, io`up, pkt, `connected
      ensures pkt.Valid()
      ensures var start := Receiver(Hunting, [], old(pkt.sequence));
              var got := Receive(start, old(io.Arriving()), ignoreAck, junk);
              && pkt.sequence == got.last.sequence
              && io.outgoing == old(io.outgoing) + Sent(io.writable, got.replies)
              && (ok <==> got.delivered.Some? && (ignoreAck || io.writable))
              && (got.delivered.Some? ==> pkt.View() == got.delivered.value && io.incoming == got.rest && io.up)
              && (got.delivered.None? ==> !io.up && !connected)
    {
      hide React, Receive, ReadSequence, ReceivedChecksum, Checksum, Sent, Acknowledgement;
      SentNothing(io.outgoing, io.writable);
      ghost var goal := Receive(Receiver(Hunting, [], pkt.sequence), io.Arriving(), ignoreAck, junk);
      ghost var replies: seq<Byte> := [];
      ok := AwaitStart(pkt.sequence, junk);
      if !ok {
        return;
      }
      while true
        invariant pkt.Valid() && io.up
        invariant goal == After(replies, Receive(Receiver(InBody, [], pkt.sequence), io.Arriving(), ignoreAck, junk))
        invariant io.outgoing == old(io.outgoing) + Sent(io.writable, replies)
        decreases |io.incoming|
      {
        var runXsum, finXsum;
        ok, runXsum := ReadBody(pkt, junk);
        assert replies + [] == replies;
        if !ok {
          return;
        }
        ghost var first, second;
        ghost var collected, arriving := Receiver(FirstDigit, pkt.Text(), pkt.sequence), io.Arriving();
        ok, finXsum, first, second := ReadChecksum(junk);
        if !ok {
          ShortChecksum(collected, arriving, ignoreAck, junk);
          return;
        }
        FrameJudged(collected, first, second, io.Arriving(), ignoreAck, junk);
        var again;
        ghost var answered := Receive(collected, [first, second] + io.Arriving(), ignoreAck, junk);
        ok, again := Answer(pkt, finXsum == runXsum);
        if !again {
          SentBoth(old(io.outgoing), io.writable, replies, answered.replies);
          return;
        }
        AfterTwice(replies, [MINUS], Receive(Receiver(InBody, [], pkt.sequence), io.Arriving(), ignoreAck, junk));
        SentBoth(old(io.outgoing), io.writable, replies, [MINUS]);
        replies := replies + [MINUS];
      }
    }

    /** Looks for a sequence number and answers a frame; `again` when it has to be sent again. */
    method Answer(pkt: Packet, good: bool) returns (ok: bool, again: bool)
      requires pkt.Valid() && pkt.readIndex == 0 && io.up
      modifies pkt, io`outgoing
      ensures pkt.Valid() && again == (!ignoreAck && !good)
      ensures var parsed := ReadSequence(Cursor(old(pkt.Text()), 0));
              && pkt.View() == parsed.cursor
              && pkt.sequence == (if parsed.sequence.Some? then parsed.sequence.value else old(pkt.sequence))
      ensures var reply := if ignoreAck then [] else if good then Acknowledgement(pkt.sequence) else [MINUS];
              io.outgoing == old(io.outgoing) + Sent(io.writable, reply)
      ensures !again ==> ok == (ignoreAck || io.writable)
    {
      hide ReadSequence;
      pkt.ParseSequence();
      again := false;
      if ignoreAck {
        assert io.outgoing + [] == io.outgoing;
        return true, false;
      }
      if good {
        if pkt.sequence != NO_SEQUENCE {
          ok := io.Write([PLUS, IntToNibble(pkt.sequence / 16, 0), IntToNibble(pkt.sequence % 16, 0)]);
        } else {
          ok := io.Write([PLUS]);
        }
        return;
      }
      ok := io.Write([MINUS]);
      again := true;
    }
  }

  lemma NothingReceived(r: Receiver, ignoreAck: bool, junk: Byte)
    ensures Receive(r, [], ignoreAck, junk) == Reception(None, [], r, [])
  {
  }

  lemma ShortChecksum(r: Receiver, input: seq<Byte>, ignoreAck: bool, junk: Byte)
    requires r.phase == FirstDigit && |input| < 2
    ensures var got := Receive(r, input, ignoreAck, junk);
            got.delivered.None? && got.replies == [] && got.last.sequence == r.sequence
  {
  }

  /** Both digits at once: the frame is delivered, or refused and another one awaited. */
  lemma FrameJudged(r: Receiver, first: Byte, second: Byte, tail: seq<Byte>, ignoreAck: bool, junk: Byte)
    requires r.phase == FirstDigit
    ensures var parsed := ReadSequence(Cursor(r.body, 0));
            var sequence := if parsed.sequence.Some? then parsed.sequence.value else r.sequence;
            Receive(r, [first, second] + tail, ignoreAck, junk)
            == if ignoreAck then Reception(Some(parsed.cursor), [], Receiver(Hunting, [], sequence), tail)
               else if ReceivedChecksum(first, second, junk) == Checksum(r.body) then
                 Reception(Some(parsed.cursor), Acknowledgement(sequence), Receiver(Hunting, [], sequence), tail)
               else After([MINUS], Receive(Receiver(InBody, [], sequence), tail, ignoreAck, junk))
  {
    hide ReadSequence, ReceivedChecksum, Checksum;
    assert [first, second] + tail == [first] + ([second] + tail);
    QuietStep(r, first, [second] + tail, ignoreAck, junk);
    assert ([second] + tail)[1..] == tail;
  }

  /** Any two characters behind `#`: without acknowledgements the frame is delivered whatever they are,
      and with them exactly if they give its checksum. */
  lemma {:induction false} AnyFrameJudged(r: Receiver, body: seq<Byte>, first: Byte, second: Byte, tail: seq<Byte>, ignoreAck: bool, junk: Byte)
    requires Listening(r) && FramingFree(body)
    ensures var sequence := SequenceAfter(body, r.sequence);
            Receive(r, [DOLLAR] + (body + ([HASH] + ([first, second] + tail))), ignoreAck, junk)
            == if ignoreAck then Reception(Some(ReadSequence(Cursor(body, 0)).cursor), [], Receiver(Hunting, [], sequence), tail)
               else if ReceivedChecksum(first, second, junk) == Sum(body) % 256 then
                 Reception(Some(ReadSequence(Cursor(body, 0)).cursor), Acknowledgement(sequence), Receiver(Hunting, [], sequence), tail)
               else After([MINUS], Receive(Receiver(InBody, [], sequence), tail, false, junk))
  {
    SequenceFoundIff(body);
    hide ReadSequence, ReceivedChecksum, Sum;
    var afterBody := [HASH] + ([first, second] + tail);
    QuietStep(r, DOLLAR, body + afterBody, ignoreAck, junk);
    var inBody := Receiver(InBody, [], r.sequence);
    BodyTaken(inBody, body, afterBody, ignoreAck, junk);
    assert [] + body == body;
    QuietStep(inBody.(body := body), HASH, [first, second] + tail, ignoreAck, junk);
    FrameJudged(Receiver(FirstDigit, body, r.sequence), first, second, tail, ignoreAck, junk);
  }

  function After(replies: seq<Byte>, r: Reception): Reception {
    r.(replies := replies + r.replies)
  }

  lemma AfterTwice(a: seq<Byte>, b: seq<Byte>, r: Reception)
    ensures After(a, After(b, r)) == After(a + b, r)
  {
    assert a + (b + r.replies) == (a + b) + r.replies;
  }

  lemma NothingSummed()
    ensures Checksum([]) == 0
  {
  }

  lemma SumOfLast(s: seq<Byte>, ch: Byte)
    ensures Checksum(s + [ch]) == (Checksum(s) + ch) % 256
  {
    assert (s + [ch])[..|s|] == s;
  }

  lemma SumOfThree(a: Byte, b: Byte, c: Byte)
    ensures Checksum([a, b, c]) == (((0 + a) % 256 + b) % 256 + c) % 256
  {
    NothingSummed();
    SumOfLast([], a);
    SumOfLast([a], b);
    SumOfLast([a, b], c);
    assert [] + [a] == [a] && [a] + [b] == [a, b] && [a, b] + [c] == [a, b, c];
  }

  lemma LowNibble(sequence: int)
    ensures sequence % 256 % 16 == sequence % 16
  {
  }

  lemma SumOfNext(head: seq<Byte>, text: seq<Byte>, n: nat)
    requires n < |text|
    ensures (head + text[..n]) + [text[n]] == head + text[..n + 1]
    ensures Checksum(head + text[..n + 1]) == (Checksum(head + text[..n]) + text[n]) % 256
  {
    SumOfLast(head + text[..n], text[n]);
    assert (head + text[..n]) + [text[n]] == head + text[..n + 1];
  }
}
