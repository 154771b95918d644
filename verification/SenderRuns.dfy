/** The sending end of the two sessions: what it writes, in any run, is what `SendPacket` writes for
    one payload after the other when it is given the characters that the run gives it. */
module SenderRuns {
  import opened Util
  import opened Packets
  import opened Framing
  import opened Sessions
  import opened StopAndWait

  // ----- Packets sent one after the other -----

  /** What is written for the payloads if these characters arrive. */
  function Wire(payloads: seq<seq<Byte>>, incoming: seq<Byte>): seq<Byte> {
    if payloads == [] then []
    else
      var one := SendUntilPlus(incoming);
      Copies(Frame(NO_SEQUENCE, payloads[0]), one.copies)
      + if one.ok then Wire(payloads[1..], After(incoming, one.taken)) else []
  }

  /** How many of the payloads are then sent. */
  function Successes(payloads: seq<seq<Byte>>, incoming: seq<Byte>): nat {
    if payloads == [] then 0
    else
      var one := SendUntilPlus(incoming);
      if one.ok then 1 + Successes(payloads[1..], After(incoming, one.taken)) else 0
  }

  function After(s: seq<Byte>, n: nat): seq<Byte> {
    if n <= |s| then s[n..] else []
  }

  /** Packets to be sent, with their texts. */
  ghost predicate Fresh(pkts: seq<Packet>, texts: seq<seq<Byte>>)
    reads pkts
  {
    && |pkts| == |texts|
    && forall i :: 0 <= i < |pkts| ==> pkts[i].Valid() && pkts[i].sequence == NO_SEQUENCE && pkts[i].Text() == texts[i]
  }

  /** A session that can write, and awaits answers but numbers nothing. */
  ghost predicate Plain(session: Session)
    reads session, session.io
  {
    session.io.up && session.io.writable && !session.ignoreAck && !session.useSequence
  }

  /** `n` payloads are sent, `wrote` is written for them and these characters are left. */
  ghost predicate SentSoFar(texts: seq<seq<Byte>>, arriving: seq<Byte>, n: nat, wrote: seq<Byte>, left: seq<Byte>) {
    && n <= |texts|
    && Successes(texts, arriving) == n + Successes(texts[n..], left)
    && Wire(texts, arriving) == wrote + Wire(texts[n..], left)
  }

  /** A caller of `SendPacket` for one packet after the other: it stops at the first that is not sent. */
  method SendAll(session: Session, pkts: seq<Packet>, ghost texts: seq<seq<Byte>>) returns (done: nat)
    requires Plain(session) && Fresh(pkts, texts)
    modifies session, session.io, pkts
    ensures Fresh(pkts, texts) && done == Successes(texts, old(session.io.incoming))
    ensures session.io.outgoing == old(session.io.outgoing) + Wire(texts, old(session.io.incoming))
  {
    assert |pkts| == |texts|;
    hide Frame, Copies, SendUntilPlus, Wire, Successes, Fresh, SentSoFar;
    ghost var arriving, wrote := session.io.incoming, [];
    done := 0;
    NothingSent(texts, arriving);
    while done < |pkts|
      invariant done <= |pkts| && Plain(session) && Fresh(pkts, texts)
      invariant session.io.outgoing == old(session.io.outgoing) + wrote
      invariant SentSoFar(texts, arriving, done, wrote, session.io.incoming)
    {
      ghost var left, one := session.io.incoming, SendUntilPlus(session.io.incoming);
      ghost var copies := Copies(Frame(NO_SEQUENCE, texts[done]), one.copies);
      SentMore(texts, arriving, done, wrote, left);
      var ok := SendNext(session, pkts, texts, done);
      Grouped(old(session.io.outgoing), wrote, copies);
      wrote := wrote + copies;
      if !ok {
        return;
      }
      done := done + 1;
    }
    AllSent(texts, arriving, wrote, session.io.incoming);
  }

  method SendNext(session: Session, pkts: seq<Packet>, ghost texts: seq<seq<Byte>>, n: nat) returns (ok: bool)
    requires Plain(session) && Fresh(pkts, texts) && n < |texts|
    modifies session, session.io, pkts
    ensures var one := SendUntilPlus(old(session.io.incoming));
            && ok == one.ok && one.taken <= |old(session.io.incoming)|
            && session.io.incoming == old(session.io.incoming)[one.taken..]
            && session.io.outgoing == old(session.io.outgoing) + Copies(Frame(NO_SEQUENCE, texts[n]), one.copies)
    ensures Fresh(pkts, texts) && (ok ==> Plain(session))
  {
    hide Frame, Copies, SendUntilPlus;
    ok := session.SendPacket(pkts[n]);
    forall i | 0 <= i < |pkts|
      ensures pkts[i].Valid() && pkts[i].sequence == NO_SEQUENCE && pkts[i].Text() == texts[i]
    {
      if pkts[i] == pkts[n] {
        assert pkts[i].View() == old(pkts[n].View());
      }
    }
  }

  lemma NothingSent(texts: seq<seq<Byte>>, arriving: seq<Byte>)
    ensures SentSoFar(texts, arriving, 0, [], arriving)
  {
    assert texts[0..] == texts;
  }

  lemma AllSent(texts: seq<seq<Byte>>, arriving: seq<Byte>, wrote: seq<Byte>, left: seq<Byte>)
    requires SentSoFar(texts, arriving, |texts|, wrote, left)
    ensures Successes(texts, arriving) == |texts| && Wire(texts, arriving) == wrote
  {
    assert texts[|texts|..] == [];
  }

  lemma SentMore(texts: seq<seq<Byte>>, arriving: seq<Byte>, n: nat, wrote: seq<Byte>, left: seq<Byte>)
    requires SentSoFar(texts, arriving, n, wrote, left) && n < |texts|
    ensures var one := SendUntilPlus(left);
            var more := wrote + Copies(Frame(NO_SEQUENCE, texts[n]), one.copies);
            && one.taken <= |left|
            && (one.ok ==> SentSoFar(texts, arriving, n + 1, more, left[one.taken..]))
            && (!one.ok ==> Successes(texts, arriving) == n && Wire(texts, arriving) == more)
  {
    SendsOne(texts, n, left);
    hide Frame, Copies, SendUntilPlus, Wire, Successes;
    var one := SendUntilPlus(left);
    Grouped(wrote, Copies(Frame(NO_SEQUENCE, texts[n]), one.copies), if one.ok then Wire(texts[n + 1..], left[one.taken..]) else []);
  }

  lemma SendsOne(texts: seq<seq<Byte>>, n: nat, incoming: seq<Byte>)
    requires n < |texts|
    ensures var one := SendUntilPlus(incoming);
            && one.taken <= |incoming|
            && Successes(texts[n..], incoming) == (if one.ok then 1 + Successes(texts[n + 1..], incoming[one.taken..]) else 0)
            && Wire(texts[n..], incoming)
               == Copies(Frame(NO_SEQUENCE, texts[n]), one.copies) + if one.ok then Wire(texts[n + 1..], incoming[one.taken..]) else []
  {
    hide Frame, Copies, SendUntilPlus;
    SendingTakesFirstPlus(incoming);
    assert texts[n..][1..] == texts[n + 1..];
  }

  // ----- What the sender of a run does -----

  /** The characters it takes. */
  ghost function Taken(payloads: seq<seq<Byte>>, s: System, run: seq<Action>): seq<Byte>
    requires CanRun(payloads, s, run)
    decreases |run|
  {
    if run == [] then []
    else (if run[0].TakeAnswer? then [s.back[0]] else []) + Taken(payloads, Do(payloads, s, run[0]), run[1..])
  }

  /** The characters it writes, before the channel has spoiled any. */
  ghost function Written(payloads: seq<seq<Byte>>, s: System, run: seq<Action>): seq<Byte>
    requires CanRun(payloads, s, run)
    decreases |run|
  {
    if run == [] then []
    else (if run[0].Transmit? then Frame(NO_SEQUENCE, payloads[s.done]) else [])
         + Written(payloads, Do(payloads, s, run[0]), run[1..])
  }

  /** The copy that the sender is about to write. */
  ghost function Due(payloads: seq<seq<Byte>>, s: System): seq<Byte> {
    if !s.waiting && s.done < |payloads| then Frame(NO_SEQUENCE, payloads[s.done]) else []
  }

  /** The frame of a step is the one `SendPacket` writes, unless the channel spoils it. */
  lemma TransmitsFrame(payloads: seq<seq<Byte>>, s: System)
    requires s.done < |payloads| && !s.waiting
    ensures Do(payloads, s, Transmit(payloads[s.done])).forward == s.forward + Frame(NO_SEQUENCE, payloads[s.done])
  {
    assert [] + payloads[s.done] == payloads[s.done];
  }

  // ----- One more character -----

  lemma {:induction false} SendingSnoc(incoming: seq<Byte>, ch: Byte)
    ensures var one, two := SendUntilPlus(incoming), SendUntilPlus(incoming + [ch]);
            && (one.ok ==> two == one && one.taken <= |incoming|)
            && (!one.ok ==>
                  && one.taken == |incoming|
                  && two == Sending(ch == PLUS, if ch == PLUS then one.copies else one.copies + 1, one.taken + 1))
    decreases |incoming|
  {
    if incoming == [] {
      assert incoming + [ch] == [ch] && [ch][1..] == [];
    } else {
      assert (incoming + [ch])[1..] == incoming[1..] + [ch];
      if incoming[0] != PLUS {
        SendingSnoc(incoming[1..], ch);
      }
    }
  }

  /** What the sender adds when one more character arrives. */
  function Added(payloads: seq<seq<Byte>>, sent: nat, ch: Byte): seq<Byte>
    requires sent < |payloads|
  {
    if ch != PLUS then Frame(NO_SEQUENCE, payloads[sent])
    else if sent + 1 < |payloads| then Frame(NO_SEQUENCE, payloads[sent + 1])
    else []
  }

  lemma NothingArrives(payloads: seq<seq<Byte>>)
    ensures Successes(payloads, []) == 0
    ensures Wire(payloads, []) == if payloads == [] then [] else Frame(NO_SEQUENCE, payloads[0])
  {
    hide Frame;
    if payloads != [] {
      assert Copies(Frame(NO_SEQUENCE, payloads[0]), 0) == [];
    }
  }

  lemma WireIs(payloads: seq<seq<Byte>>, incoming: seq<Byte>)
    ensures payloads == [] ==> Wire(payloads, incoming) == [] && Successes(payloads, incoming) == 0
    ensures payloads != [] ==>
              var one := SendUntilPlus(incoming);
              var rest, left := payloads[1..], After(incoming, one.taken);
              && Successes(payloads, incoming) == (if one.ok then 1 + Successes(rest, left) else 0)
              && Wire(payloads, incoming)
                 == Copies(Frame(NO_SEQUENCE, payloads[0]), one.copies) + if one.ok then Wire(rest, left) else []
  {
  }

  lemma AfterSnoc(incoming: seq<Byte>, ch: Byte, n: nat)
    requires n <= |incoming|
    ensures After(incoming + [ch], n) == After(incoming, n) + [ch] && After(incoming + [ch], |incoming| + 1) == []
  {
  }

  lemma {:induction false} WireSnoc(payloads: seq<seq<Byte>>, incoming: seq<Byte>, ch: Byte)
    requires Successes(payloads, incoming) < |payloads|
    ensures var sent := Successes(payloads, incoming);
            && Successes(payloads, incoming + [ch]) == sent + (if ch == PLUS then 1 else 0)
            && Wire(payloads, incoming + [ch]) == Wire(payloads, incoming) + Added(payloads, sent, ch)
    decreases |payloads|
  {
    hide Frame, Copies, SendUntilPlus, Wire, Successes, After, Added;
    if SendUntilPlus(incoming).ok {
      WireIs(payloads, incoming);
      var rest, left := payloads[1..], After(incoming, SendUntilPlus(incoming).taken);
      WireSnoc(rest, left, ch);
      SnocLater(payloads, incoming, ch);
    } else {
      SnocFirst(payloads, incoming, ch);
    }
  }

  /** The character comes after the answers to the first payload. */
  lemma SnocLater(payloads: seq<seq<Byte>>, incoming: seq<Byte>, ch: Byte)
    requires payloads != [] && SendUntilPlus(incoming).ok
    requires var rest, left := payloads[1..], After(incoming, SendUntilPlus(incoming).taken);
             && Successes(rest, left) < |rest|
             && Successes(rest, left + [ch]) == Successes(rest, left) + (if ch == PLUS then 1 else 0)
             && Wire(rest, left + [ch]) == Wire(rest, left) + Added(rest, Successes(rest, left), ch)
    ensures var sent := Successes(payloads, incoming);
            && sent < |payloads|
            && Successes(payloads, incoming + [ch]) == sent + (if ch == PLUS then 1 else 0)
            && Wire(payloads, incoming + [ch]) == Wire(payloads, incoming) + Added(payloads, sent, ch)
  {
    hide Frame, Copies, SendUntilPlus, Wire, Successes, After;
    WireIs(payloads, incoming);
    WireIs(payloads, incoming + [ch]);
    SendingSnoc(incoming, ch);
    var one, rest := SendUntilPlus(incoming), payloads[1..];
    var left := After(incoming, one.taken);
    AfterSnoc(incoming, ch, one.taken);
    var added := Added(rest, Successes(rest, left), ch);
    assert Added(payloads, Successes(rest, left) + 1, ch) == added;
    hide Added;
    Grouped(Copies(Frame(NO_SEQUENCE, payloads[0]), one.copies), Wire(rest, left), added);
  }

  /** The first payload is not sent before the character. */
  lemma SnocFirst(payloads: seq<seq<Byte>>, incoming: seq<Byte>, ch: Byte)
    requires payloads != [] && !SendUntilPlus(incoming).ok
    ensures Successes(payloads, incoming) == 0 && Successes(payloads, incoming + [ch]) == if ch == PLUS then 1 else 0
    ensures Wire(payloads, incoming + [ch]) == Wire(payloads, incoming) + Added(payloads, 0, ch)
  {
    WireIs(payloads, incoming);
    WireIs(payloads, incoming + [ch]);
    SendingSnoc(incoming, ch);
    hide Frame, Copies, SendUntilPlus, Wire, Successes, After;
    var one, frame := SendUntilPlus(incoming), Frame(NO_SEQUENCE, payloads[0]);
    AfterSnoc(incoming, ch, one.taken);
    NothingArrives(payloads[1..]);
    CopiesSnoc(frame, one.copies);
    Grouped(Copies(frame, one.copies), [], Added(payloads, 0, ch));
  }

  lemma Grouped(a: seq<Byte>, b: seq<Byte>, c: seq<Byte>)
    ensures a + (b + c) == (a + b) + c && [] + c == c && a + [] == a
  {
  }

  // ----- Every run -----

  /** `taken` and `wrote` are what the sender has taken and written so far. */
  ghost predicate Follows(payloads: seq<seq<Byte>>, s: System, taken: seq<Byte>, wrote: seq<Byte>) {
    && s.done == Successes(payloads, taken) <= |payloads|
    && (s.waiting ==> s.done < |payloads|)
    && wrote + Due(payloads, s) == Wire(payloads, taken)
  }

  lemma {:induction false} StepFollows(payloads: seq<seq<Byte>>, s: System, a: Action, taken: seq<Byte>, wrote: seq<Byte>)
    requires Follows(payloads, s, taken, wrote) && Enabled(payloads, s, a)
    ensures Follows(payloads, Do(payloads, s, a),
                    taken + (if a.TakeAnswer? then [s.back[0]] else []),
                    wrote + (if a.Transmit? then Frame(NO_SEQUENCE, payloads[s.done]) else []))
  {
    hide Frame, Successes, Wire, React, Carries, FrameOf;
    match a {
      case Transmit(_) => Grouped(wrote, [], Due(payloads, s));
      case TakeAnswer =>
        WireSnoc(payloads, taken, s.back[0]);
        Grouped(wrote, [], Added(payloads, s.done, s.back[0]));
      case TakeCharacter(_) =>
        assert taken + [] == taken && wrote + [] == wrote;
    }
  }

  lemma {:induction false} RunFollows(payloads: seq<seq<Byte>>, s: System, run: seq<Action>, taken: seq<Byte>, wrote: seq<Byte>)
    requires Follows(payloads, s, taken, wrote) && CanRun(payloads, s, run)
    ensures Follows(payloads, AfterRun(payloads, s, run), taken + Taken(payloads, s, run), wrote + Written(payloads, s, run))
    decreases |run|
  {
    hide Follows, Do, Frame, Carries;
    if run == [] {
      assert taken + [] == taken && wrote + [] == wrote;
    } else {
      var a := run[0];
      var answer := if a.TakeAnswer? then [s.back[0]] else [];
      var copy := if a.Transmit? then Frame(NO_SEQUENCE, payloads[s.done]) else [];
      StepFollows(payloads, s, a, taken, wrote);
      RunFollows(payloads, Do(payloads, s, a), run[1..], taken + answer, wrote + copy);
      Grouped(taken, answer, Taken(payloads, Do(payloads, s, a), run[1..]));
      Grouped(wrote, copy, Written(payloads, Do(payloads, s, a), run[1..]));
    }
  }

  /** In every run the sender writes, up to the copy it is about to write, what sending the payloads
      one after the other writes on the same answers, and has sent as many of them. */
  lemma {:induction false} SenderIsSendPacket(payloads: seq<seq<Byte>>, run: seq<Action>)
    requires CanRun(payloads, INITIAL, run)
    ensures var s, taken := AfterRun(payloads, INITIAL, run), Taken(payloads, INITIAL, run);
            && s.done == Successes(payloads, taken)
            && Written(payloads, INITIAL, run) + Due(payloads, s) == Wire(payloads, taken)
  {
    NothingArrives(payloads);
    hide Frame, Wire, Successes, CanRun, AfterRun, Taken, Written;
    RunFollows(payloads, INITIAL, run, [], []);
    Grouped([], [], Taken(payloads, INITIAL, run));
    Grouped([], [], Written(payloads, INITIAL, run));
  }
}
