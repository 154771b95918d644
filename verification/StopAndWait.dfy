/** Two sessions over a channel that keeps the order but may spoil a character: one sends a list of
    payloads with acknowledgements, the other receives them into one packet object. */
module StopAndWait {
  import opened Util
  import opened PacketFields
  import opened Framing

  /** `done` counts the payloads for which `SendPacket` has returned true; while `waiting`, a copy of
      the next one, received or not, awaits its answer. `sent` is the text of the last copy as the
      channel carried it. `accepted` are the texts for which `GetPacket` has returned true. */
  datatype System = System(
    done: nat, waiting: bool, sent: seq<Byte>,
    forward: seq<Byte>, back: seq<Byte>,
    receiver: Receiver, accepted: seq<seq<Byte>>)

  const INITIAL := System(0, false, [], [], [], Receiver(Hunting, [], NO_SEQUENCE), [])

  datatype Action =
    | Transmit(carried: seq<Byte>)  // the sender writes a copy, the channel carries this text
    | TakeAnswer                    // the sender reads one character
    | TakeCharacter(junk: Byte)     // the receiver reads one character

  /** What the channel may make of a text: at most one character becomes another, no framing one. */
  ghost predicate Carries(p: seq<Byte>, q: seq<Byte>) {
    q == p || exists i :: 0 <= i < |q| && SpoiledAt(p, q, i)
  }

  ghost predicate SpoiledAt(p: seq<Byte>, q: seq<Byte>, i: nat)
    requires i < |q|
  {
    i < |p| && q[i] != p[i] && q[i] != HASH && q[i] != DOLLAR && q == p[i := q[i]]
  }

  ghost predicate Enabled(payloads: seq<seq<Byte>>, s: System, a: Action) {
    match a
    case Transmit(carried) => !s.waiting && s.done < |payloads| && Carries(payloads[s.done], carried)
    case TakeAnswer => s.waiting && s.back != []
    case TakeCharacter(_) => s.forward != []
  }

  ghost function Do(payloads: seq<seq<Byte>>, s: System, a: Action): System
    requires Enabled(payloads, s, a)
  {
    match a
    case Transmit(carried) =>
      s.(waiting := true, sent := carried, forward := s.forward + FrameOf(carried, Checksum(payloads[s.done])))
    case TakeAnswer =>
      s.(waiting := false, back := s.back[1..], done := if s.back[0] == PLUS then s.done + 1 else s.done)
    case TakeCharacter(junk) =>
      var step := React(s.receiver, s.forward[0], false, junk);
      s.(forward := s.forward[1..], back := s.back + step.reply, receiver := step.next,
         accepted := if step.delivered.Some? then s.accepted + [s.receiver.body] else s.accepted)
  }

  ghost predicate CanRun(payloads: seq<seq<Byte>>, s: System, run: seq<Action>)
    decreases |run|
  {
    run == [] || (Enabled(payloads, s, run[0]) && CanRun(payloads, Do(payloads, s, run[0]), run[1..]))
  }

  ghost function AfterRun(payloads: seq<seq<Byte>>, s: System, run: seq<Action>): System
    requires CanRun(payloads, s, run)
    decreases |run|
  {
    if run == [] then s else AfterRun(payloads, Do(payloads, s, run[0]), run[1..])
  }

  /** Nothing lost, duplicated or reordered: the accepted texts are the payloads sent, and at most
      the one still in flight. */
  ghost predicate Exact(payloads: seq<seq<Byte>>, s: System) {
    && s.done <= |payloads|
    && (|| s.accepted == payloads[..s.done]
        || (s.done < |payloads| && s.accepted == payloads[..s.done + 1]))
  }

  ghost predicate AllFramingFree(payloads: seq<seq<Byte>>) {
    forall p :: p in payloads ==> FramingFree(p)
  }

  function Count(b: bool): nat {
    if b then 1 else 0
  }

  /** At most one character away from a text that begins with a sequence number. */
  predicate Risky(p: seq<Byte>) {
    |p| >= 3 && Count(IsHex(p[0])) + Count(IsHex(p[1])) + Count(p[2] == COLON) >= 2
  }

  lemma {:induction false} RiskyIffCarriedSequenced(p: seq<Byte>)
    ensures Risky(p) <==> exists q :: Carries(p, q) && LooksSequenced(q)
  {
    if Risky(p) {
      var q := Spoiled(p);
      assert Carries(p, q) && LooksSequenced(q);
    }
  }

  /** A text the channel can make of a risky payload. */
  lemma {:induction false} Spoiled(p: seq<Byte>) returns (q: seq<Byte>)
    requires Risky(p)
    ensures Carries(p, q) && LooksSequenced(q)
  {
    var zero: Byte := 48;
    q := p;
    if !IsHex(p[0]) {
      q := p[0 := zero];
      assert SpoiledAt(p, q, 0);
    } else if !IsHex(p[1]) {
      q := p[1 := zero];
      assert SpoiledAt(p, q, 1);
    } else if p[2] != COLON {
      q := p[2 := COLON];
      assert SpoiledAt(p, q, 2);
    }
  }

  /** No payload but the last one is risky. */
  ghost predicate Unambiguous(payloads: seq<seq<Byte>>) {
    forall i :: 0 <= i < |payloads| - 1 ==> !Risky(payloads[i])
  }

  // ----- Safety -----

  /** How far the receiver has got into the copy in flight. */
  ghost predicate Underway(s: System, body: seq<Byte>, sum: Byte) {
    var digits := HexPair(sum);
    match s.receiver.phase
    case Hunting => s.forward == FrameOf(body, sum)
    case InBody =>
      || s.forward == FrameOf(body, sum)
      || (s.receiver.body <= body && s.forward == body[|s.receiver.body|..] + [HASH] + digits)
    case FirstDigit => s.receiver.body == body && s.forward == digits
    case SecondDigit(first) => s.receiver.body == body && first == digits[0] && s.forward == [digits[1]]
  }

  ghost predicate Invariant(payloads: seq<seq<Byte>>, s: System) {
    && s.done <= |payloads|
    && (s.done < |payloads| - 1 ==> s.receiver.sequence == NO_SEQUENCE)
    && if !s.waiting then
         && Listening(s.receiver) && s.forward == []
         && s.accepted == payloads[..s.done]
         && (s.done < |payloads| ==> s.back == [])
       else
         && s.done < |payloads|
         && Carries(payloads[s.done], s.sent)
         && (|| (s.back == [] && s.accepted == payloads[..s.done]
                 && Underway(s, s.sent, Checksum(payloads[s.done])))
             || (s.back == [MINUS] && s.accepted == payloads[..s.done] && s.forward == [] && Listening(s.receiver))
             || (s.back == Acknowledgement(s.receiver.sequence) && s.accepted == payloads[..s.done + 1]
                 && s.forward == [] && Listening(s.receiver)))
  }

  lemma {:induction false} CarriedIsFramingFree(p: seq<Byte>, q: seq<Byte>)
    requires Carries(p, q) && FramingFree(p)
    ensures FramingFree(q)
    ensures q != p ==> Checksum(q) != Checksum(p)
  {
    if q != p {
      var i :| 0 <= i < |q| && SpoiledAt(p, q, i);
      OneChangeDetected(p, i, q[i]);
    }
  }

  /** The receiver's next character while a copy is under way. */
  lemma {:induction false} UnderwayStep(payloads: seq<seq<Byte>>, s: System, junk: Byte)
    requires AllFramingFree(payloads) && s.waiting && s.done < |payloads|
    requires Carries(payloads[s.done], s.sent) && Underway(s, s.sent, Checksum(payloads[s.done]))
    ensures s.forward != []
    ensures var t := Do(payloads, s, TakeCharacter(junk));
            if s.receiver.phase.SecondDigit? then
              && t.forward == [] && Listening(t.receiver)
              && t.receiver.sequence == SequenceAfter(s.sent, s.receiver.sequence)
              && (if s.sent == payloads[s.done] then
                    t.accepted == s.accepted + [s.sent] && t.back == s.back + Acknowledgement(t.receiver.sequence)
                  else t.accepted == s.accepted && t.back == s.back + [MINUS])
            else
              && Underway(t, s.sent, Checksum(payloads[s.done]))
              && t.accepted == s.accepted && t.back == s.back && t.receiver.sequence == s.receiver.sequence
              && |t.forward| == |s.forward| - 1
  {
    hide Checksum, ReadSequence;
    var p, q := payloads[s.done], s.sent;
    assert p in payloads;
    CarriedIsFramingFree(p, q);
    var sum := Checksum(p);
    match s.receiver.phase {
      case Hunting => StartStep(q, sum, s.receiver, junk);
      case InBody =>
        if s.forward == FrameOf(q, sum) {
          StartStep(q, sum, s.receiver, junk);
        } else {
          BodyStep(q, sum, s.receiver, junk);
        }
      case FirstDigit =>
      case SecondDigit(first) =>
        ChecksumRead(sum, junk);
        SequenceFoundIff(q);
    }
  }

  lemma StartStep(q: seq<Byte>, sum: Byte, r: Receiver, junk: Byte)
    requires Listening(r)
    ensures var f := FrameOf(q, sum);
            && React(r, f[0], false, junk) == Reaction(Receiver(InBody, [], r.sequence), [], None)
            && f[1..] == q + [HASH] + HexPair(sum) == q[0..] + [HASH] + HexPair(sum)
  {
  }

  lemma BodyStep(q: seq<Byte>, sum: Byte, r: Receiver, junk: Byte)
    requires FramingFree(q) && r.phase == InBody && r.body <= q
    ensures var k := |r.body|;
            var f := q[k..] + [HASH] + HexPair(sum);
            if k == |q| then
              React(r, f[0], false, junk) == Reaction(r.(phase := FirstDigit), [], None) && r.body == q && f[1..] == HexPair(sum)
            else
              && React(r, f[0], false, junk) == Reaction(r.(body := q[..k + 1]), [], None)
              && f[1..] == q[k + 1..] + [HASH] + HexPair(sum)
  {
    var k := |r.body|;
    if k < |q| {
      assert q[k] in q;
      assert r.body + [q[k]] == q[..k + 1];
    }
  }

  lemma {:induction false} StepKeepsInvariant(payloads: seq<seq<Byte>>, s: System, a: Action)
    requires AllFramingFree(payloads) && Unambiguous(payloads)
    requires Invariant(payloads, s) && Enabled(payloads, s, a)
    ensures Invariant(payloads, Do(payloads, s, a))
  {
    match a {
      case Transmit(carried) =>
        assert [] + FrameOf(carried, Checksum(payloads[s.done])) == FrameOf(carried, Checksum(payloads[s.done]));
      case TakeAnswer =>
      case TakeCharacter(junk) =>
        UnderwayStep(payloads, s, junk);
        if s.done < |payloads| - 1 && LooksSequenced(s.sent) {
          RiskyIffCarriedSequenced(payloads[s.done]);
        }
    }
  }

  lemma {:induction false} RunKeepsInvariant(payloads: seq<seq<Byte>>, s: System, run: seq<Action>)
    requires AllFramingFree(payloads) && Unambiguous(payloads)
    requires Invariant(payloads, s) && CanRun(payloads, s, run)
    ensures Invariant(payloads, AfterRun(payloads, s, run))
    decreases |run|
  {
    if run != [] {
      StepKeepsInvariant(payloads, s, run[0]);
      RunKeepsInvariant(payloads, Do(payloads, s, run[0]), run[1..]);
    }
  }

  // ----- Runs put together -----

  lemma {:induction false} RunsJoin(payloads: seq<seq<Byte>>, s: System, first: seq<Action>, second: seq<Action>)
    requires CanRun(payloads, s, first) && CanRun(payloads, AfterRun(payloads, s, first), second)
    ensures CanRun(payloads, s, first + second)
    ensures AfterRun(payloads, s, first + second) == AfterRun(payloads, AfterRun(payloads, s, first), second)
    decreases |first|
  {
    hide Enabled, Do;
    if first == [] {
      assert first + second == second;
    } else {
      assert first + second == [first[0]] + (first[1..] + second);
      RunsJoin(payloads, Do(payloads, s, first[0]), first[1..], second);
    }
  }

  /** `t` can be reached from `s`. */
  ghost predicate Leads(payloads: seq<seq<Byte>>, s: System, t: System) {
    exists run :: CanRun(payloads, s, run) && AfterRun(payloads, s, run) == t
  }

  lemma LeadsNowhere(payloads: seq<seq<Byte>>, s: System)
    ensures Leads(payloads, s, s)
  {
    assert CanRun(payloads, s, []) && AfterRun(payloads, s, []) == s;
  }

  lemma LeadsByStep(payloads: seq<seq<Byte>>, s: System, a: Action)
    requires Enabled(payloads, s, a)
    ensures Leads(payloads, s, Do(payloads, s, a))
  {
    var t := Do(payloads, s, a);
    assert [a][1..] == [];
    assert CanRun(payloads, t, []);
    assert CanRun(payloads, s, [a]) && AfterRun(payloads, s, [a]) == t;
  }

  lemma LeadsOn(payloads: seq<seq<Byte>>, s: System, t: System, u: System)
    requires Leads(payloads, s, t) && Leads(payloads, t, u)
    ensures Leads(payloads, s, u)
  {
    var first :| CanRun(payloads, s, first) && AfterRun(payloads, s, first) == t;
    var second :| CanRun(payloads, t, second) && AfterRun(payloads, t, second) == u;
    RunsJoin(payloads, s, first, second);
  }

  /** The receiver can read a copy to its end. */
  lemma {:induction false} CopyCanEnd(payloads: seq<seq<Byte>>, s: System) returns (t: System)
    requires AllFramingFree(payloads) && s.waiting && s.done < |payloads|
    requires Carries(payloads[s.done], s.sent) && Underway(s, s.sent, Checksum(payloads[s.done]))
    ensures Leads(payloads, s, t)
    ensures t.waiting && t.done == s.done && t.sent == s.sent && t.forward == [] && Listening(t.receiver)
    ensures t.receiver.sequence == SequenceAfter(s.sent, s.receiver.sequence)
    ensures if s.sent == payloads[s.done] then
              t.accepted == s.accepted + [s.sent] && t.back == s.back + Acknowledgement(t.receiver.sequence)
            else t.accepted == s.accepted && t.back == s.back + [MINUS]
    decreases |s.forward|
  {
    hide Leads, Underway, FrameOf, Checksum, React, Acknowledgement;
    UnderwayStep(payloads, s, 0);
    LeadsByStep(payloads, s, TakeCharacter(0));
    t := Do(payloads, s, TakeCharacter(0));
    if !s.receiver.phase.SecondDigit? {
      var next := t;
      t := CopyCanEnd(payloads, next);
      LeadsOn(payloads, s, next, t);
    }
  }

  /** A copy can be sent and read, with the channel making `carried` of it. */
  lemma {:induction false} CopyCanPass(payloads: seq<seq<Byte>>, s: System, carried: seq<Byte>) returns (t: System)
    requires AllFramingFree(payloads) && !s.waiting && s.done < |payloads|
    requires Carries(payloads[s.done], carried) && s.forward == [] && Listening(s.receiver)
    ensures Leads(payloads, s, t)
    ensures t.waiting && t.done == s.done && t.forward == [] && Listening(t.receiver)
    ensures t.receiver.sequence == SequenceAfter(carried, s.receiver.sequence)
    ensures if carried == payloads[s.done] then
              t.accepted == s.accepted + [carried] && t.back == s.back + Acknowledgement(t.receiver.sequence)
            else t.accepted == s.accepted && t.back == s.back + [MINUS]
  {
    hide Leads, Checksum, Acknowledgement;
    LeadsByStep(payloads, s, Transmit(carried));
    var sent := Do(payloads, s, Transmit(carried));
    var f := FrameOf(carried, Checksum(payloads[s.done]));
    assert [] + f == f;
    t := CopyCanEnd(payloads, sent);
    LeadsOn(payloads, s, sent, t);
  }

  /** The sender can read its answer. */
  lemma {:induction false} AnswerCanBeTaken(payloads: seq<seq<Byte>>, s: System) returns (t: System)
    requires s.waiting && s.back != []
    ensures Leads(payloads, s, t)
    ensures t == s.(waiting := false, back := s.back[1..], done := if s.back[0] == PLUS then s.done + 1 else s.done)
  {
    LeadsByStep(payloads, s, TakeAnswer);
    t := Do(payloads, s, TakeAnswer);
  }

  // ----- Completion -----

  /** Between two sends, with nothing in flight. */
  ghost predicate Resting(payloads: seq<seq<Byte>>, s: System) {
    && !s.waiting && s.done <= |payloads|
    && s.forward == [] && Listening(s.receiver)
    && s.accepted == payloads[..s.done]
    && (s.done < |payloads| ==> s.back == [] && (s.done < |payloads| - 1 ==> s.receiver.sequence == NO_SEQUENCE))
  }

  lemma {:induction false} NextCanComplete(payloads: seq<seq<Byte>>, s: System) returns (t: System)
    requires AllFramingFree(payloads) && Resting(payloads, s) && s.done < |payloads|
    requires s.done < |payloads| - 1 ==> !LooksSequenced(payloads[s.done])
    ensures Leads(payloads, s, t) && Resting(payloads, t) && t.done == s.done + 1
    ensures s.receiver.sequence == NO_SEQUENCE && t.done < |payloads| ==> t.receiver.sequence == NO_SEQUENCE
  {
    hide Leads, FrameOf, Checksum, Risky;
    var p := payloads[s.done];
    var answered := CopyCanPass(payloads, s, p);
    assert [] + Acknowledgement(answered.receiver.sequence) == Acknowledgement(answered.receiver.sequence);
    t := AnswerCanBeTaken(payloads, answered);
    LeadsOn(payloads, s, answered, t);
    assert payloads[..s.done] + [p] == payloads[..s.done + 1];
  }

  lemma {:induction false} RestCanComplete(payloads: seq<seq<Byte>>, s: System) returns (t: System)
    requires AllFramingFree(payloads) && Unambiguous(payloads) && Resting(payloads, s)
    ensures Leads(payloads, s, t) && t.done == |payloads| && t.accepted == payloads
    decreases |payloads| - s.done
  {
    hide Leads;
    if s.done == |payloads| {
      assert payloads[..s.done] == payloads;
      LeadsNowhere(payloads, s);
      t := s;
    } else {
      var next := NextCanComplete(payloads, s);
      t := RestCanComplete(payloads, next);
      LeadsOn(payloads, s, next, t);
    }
  }

  /** From any state of a run, the copy in flight can be read and answered, and the answer taken. */
  lemma {:induction false} CanComeToRest(payloads: seq<seq<Byte>>, s: System) returns (t: System)
    requires AllFramingFree(payloads) && Unambiguous(payloads) && Invariant(payloads, s)
    ensures Leads(payloads, s, t) && Resting(payloads, t)
  {
    hide Leads, Underway, FrameOf, Checksum;
    LeadsNowhere(payloads, s);
    t := s;
    if s.waiting {
      var answered := AnswerCanArrive(payloads, s);
      t := AnswerCanBeTaken(payloads, answered);
      LeadsOn(payloads, s, answered, t);
    }
  }

  lemma {:induction false} AnswerCanArrive(payloads: seq<seq<Byte>>, s: System) returns (t: System)
    requires AllFramingFree(payloads) && Unambiguous(payloads) && Invariant(payloads, s) && s.waiting
    ensures Leads(payloads, s, t) && Invariant(payloads, t) && t.waiting && t.back != [] && t.forward == []
  {
    LeadsNowhere(payloads, s);
    t := s;
    if s.back == [] {
      t := CopyCanEnd(payloads, s);
      var run :| CanRun(payloads, s, run) && AfterRun(payloads, s, run) == t;
      RunKeepsInvariant(payloads, s, run);
    }
  }

  /** Whatever has happened so far, every payload can still be delivered: no state is a dead end. */
  lemma {:induction false} CompletionStaysPossible(payloads: seq<seq<Byte>>, s: System) returns (t: System)
    requires AllFramingFree(payloads) && Unambiguous(payloads)
    requires Leads(payloads, INITIAL, s)
    ensures Leads(payloads, s, t) && t.done == |payloads| && t.accepted == payloads
  {
    hide Underway, FrameOf, Checksum, Enabled, Do;
    var run :| CanRun(payloads, INITIAL, run) && AfterRun(payloads, INITIAL, run) == s;
    RunKeepsInvariant(payloads, INITIAL, run);
    var rested := CanComeToRest(payloads, s);
    t := RestCanComplete(payloads, rested);
    LeadsOn(payloads, s, rested, t);
  }

  // ----- When it goes wrong -----

  /** The sender can be refused once, so that the receiver's packet keeps a sequence number. */
  lemma {:induction false} RiskyCanSpoil(payloads: seq<seq<Byte>>, s: System) returns (t: System)
    requires AllFramingFree(payloads) && Resting(payloads, s) && s.done < |payloads| - 1 && Risky(payloads[s.done])
    ensures Leads(payloads, s, t) && t.done == s.done && !t.waiting && t.forward == [] && t.back == []
    ensures Listening(t.receiver) && t.accepted == s.accepted
    ensures 0 <= SequenceAfter(payloads[s.done], t.receiver.sequence) < 256
  {
    hide Leads, FrameOf, Checksum;
    var p := payloads[s.done];
    var q := Spoiled(p);
    t := s;
    LeadsNowhere(payloads, s);
    if q != p {
      var refused := CopyCanPass(payloads, s, q);
      t := AnswerCanBeTaken(payloads, refused);
      LeadsOn(payloads, s, refused, t);
    }
  }

  /** A risky payload can leave its sequence number in the receiver's packet, so that the answer to
      it is longer than the one character the sender reads. */
  lemma {:induction false} RiskyLeavesAnswer(payloads: seq<seq<Byte>>, s: System) returns (t: System)
    requires AllFramingFree(payloads) && Resting(payloads, s) && s.done < |payloads| - 1 && Risky(payloads[s.done])
    ensures Leads(payloads, s, t)
    ensures !t.waiting && t.done == s.done + 1 && t.forward == [] && Listening(t.receiver)
    ensures t.accepted == payloads[..t.done] && t.back != [] && t.back[0] != PLUS
  {
    hide Leads, FrameOf, Checksum, Risky;
    var p := payloads[s.done];
    var ready := RiskyCanSpoil(payloads, s);
    var answered := CopyCanPass(payloads, ready, p);
    LeadsOn(payloads, s, ready, answered);
    var sequence := answered.receiver.sequence;
    assert answered.back == [PLUS, HexDigit(sequence / 16), HexDigit(sequence % 16)];
    HexDigitReadsBack(sequence / 16);
    t := AnswerCanBeTaken(payloads, answered);
    LeadsOn(payloads, s, answered, t);
    assert payloads[..s.done] + [p] == payloads[..s.done + 1];
  }

  /** The sender takes the rest of an earlier answer for a refusal, and the receiver accepts the next
      payload twice. */
  lemma {:induction false} LeftoverDuplicates(payloads: seq<seq<Byte>>, s: System) returns (t: System)
    requires AllFramingFree(payloads) && s.done < |payloads|
    requires !s.waiting && s.forward == [] && Listening(s.receiver) && s.accepted == payloads[..s.done]
    requires s.back != [] && s.back[0] != PLUS
    ensures Leads(payloads, s, t) && !Exact(payloads, t)
  {
    hide Leads, FrameOf, Checksum, Acknowledgement;
    var p := payloads[s.done];
    var once := CopyCanPass(payloads, s, p);
    assert once.back[0] == s.back[0];
    var again := AnswerCanBeTaken(payloads, once);
    LeadsOn(payloads, s, once, again);
    t := CopyCanPass(payloads, again, p);
    LeadsOn(payloads, s, again, t);
    assert |t.accepted| == s.done + 2;
  }

  lemma {:induction false} RiskyCanDuplicate(payloads: seq<seq<Byte>>, s: System) returns (t: System)
    requires AllFramingFree(payloads) && Resting(payloads, s)
    requires exists i :: s.done <= i < |payloads| - 1 && Risky(payloads[i])
    ensures Leads(payloads, s, t) && !Exact(payloads, t)
    decreases |payloads| - s.done
  {
    hide Leads, FrameOf, Checksum;
    var p := payloads[s.done];
    if Risky(p) {
      var left := RiskyLeavesAnswer(payloads, s);
      t := LeftoverDuplicates(payloads, left);
      LeadsOn(payloads, s, left, t);
    } else {
      var next := NextCanComplete(payloads, s);
      t := RiskyCanDuplicate(payloads, next);
      LeadsOn(payloads, s, next, t);
    }
  }

  /** Exact delivery, over every run, is the same as an unambiguous list of payloads. */
  lemma {:induction false} ExactIffUnambiguous(payloads: seq<seq<Byte>>)
    requires AllFramingFree(payloads)
    ensures Unambiguous(payloads) <==> forall s :: Leads(payloads, INITIAL, s) ==> Exact(payloads, s)
  {
    if Unambiguous(payloads) {
      forall s | Leads(payloads, INITIAL, s) ensures Exact(payloads, s) {
        var run :| CanRun(payloads, INITIAL, run) && AfterRun(payloads, INITIAL, run) == s;
        RunKeepsInvariant(payloads, INITIAL, run);
      }
    } else {
      var t := RiskyCanDuplicate(payloads, INITIAL);
    }
  }
}
