/** What each turn of the receiver and each send does in a run, and that neither thread is ever stuck. */
module PipelineSteps {
  import opened Wrappers
  import opened NameList
  import opened Spooling
  import opened Pipeline
  import opened PipelineSafety
  import opened PipelineTheorems

  // ----- The receiver -----

  /** The buffer has to leave: it holds something, and the wait for data timed out or less than a receive
      and a byte of its known size is left. */
  predicate MustLeave(b: Buffer, timedOut: bool) { b.len > 0 && (timedOut || b.cap - b.len < 4097) }

  /** A turn's end hands the buffer on exactly when it must leave: to the queue when no name list is
      pending and the push succeeds, and to the spool otherwise. */
  lemma FlushExactly(states: seq<State>, actions: seq<Action>, i: nat)
    requires Run(states, actions) && i < |actions| && actions[i].Flush?
    ensures states[i].pc.Flushing? && states[i].msg.Some?
    ensures var s := states[i]; var b := s.msg.value;
      if !MustLeave(b, !s.pc.ready) then states[i + 1] == s.(pc := Top)
      else if s.spool.names.None? && actions[i].pushed then
        states[i + 1] == s.(pc := Top, queue := s.queue + [Data(b.chunks)], msg := None)
      else states[i + 1] == s.(pc := Spilling, msg := Some(b.(kind := 1)))
    ensures actions[i].pushed ==> states[i].spool.names.None? && MustLeave(states[i].msg.value, !states[i].pc.ready)
  {
    hide SpoolInv, SentSettled, RoomInv, InOrder, Everything, Init;
    RunKeeps(states, actions, i);
  }

  /** Whether data were there when the turn began. */
  function LastSelect(actions: seq<Action>, i: nat): Option<bool>
    requires i <= |actions|
  {
    if i == 0 then None
    else if actions[i - 1].Select? then Some(actions[i - 1].ready)
    else LastSelect(actions, i - 1)
  }

  lemma {:induction false} TurnKnown(states: seq<State>, actions: seq<Action>, i: nat)
    requires Run(states, actions) && i <= |actions|
    ensures !states[i].pc.Top? && !states[i].pc.Spilling? ==> LastSelect(actions, i) == Some(states[i].pc.ready)
    ensures states[i].pc.Top? && LastSelect(actions, i) == Some(false) ==> states[i].msg.None? || states[i].msg.value.len == 0
  {
    hide Next, Enabled, Inv;
    if i > 0 {
      TurnKnown(states, actions, i - 1);
      RunKeeps(states, actions, i - 1);
      StepTurn(states[i - 1], actions[i - 1]);
    }
  }

  lemma StepTurn(s: State, a: Action)
    requires Inv(s) && Enabled(s, a)
    ensures var q := Next(s, a);
      && (q.pc.Naming? ==> if a.Select? then q.pc.ready == a.ready else q.pc == s.pc)
      && (q.pc.Receiving? ==> !a.Select? && if a.OfferNames? then s.pc.Naming? && q.pc.ready == s.pc.ready else q.pc == s.pc)
      && (q.pc.Flushing? ==> !a.Select? && if a.Receive? then s.pc.Receiving? && q.pc.ready == s.pc.ready else q.pc == s.pc)
      && (q.pc.Top? ==>
            && !a.Select?
            && if a.Spill? then q.msg.None? || q.msg.value.len == 0
               else if a.Flush? then s.pc.Flushing? && (!s.pc.ready ==> q.msg.None? || q.msg.value.len == 0)
               else s.pc.Top? && q.msg == s.msg)
  {
    hide SpoolInv, SentSettled, InOrder, Everything, SeenBySender, Write;
    if a.Flush? && s.msg.Some? {
      LenIsSize(s);
    }
  }

  lemma LenIsSize(s: State)
    requires RoomInv(s.pc, s.msg, s.nodeSize) && s.msg.Some?
    ensures s.msg.value.len >= 0
  {
  }

  /** A turn in which the wait for data timed out leaves nothing in the receiver's hands. */
  lemma QuietTurnHandsOn(states: seq<State>, actions: seq<Action>, i: nat)
    requires Run(states, actions) && i <= |actions|
    requires states[i].pc.Top? && LastSelect(actions, i) == Some(false)
    ensures states[i].msg.None? || states[i].msg.value.len == 0
  {
    TurnKnown(states, actions, i);
  }

  /** The rest of a turn: a fresh buffer of the configured size when there is none; the pending names
      queued and forgotten, or kept with the message sent the same way; the received bytes put after the
      others. Nothing else changes. */
  lemma TurnExactly(states: seq<State>, actions: seq<Action>, i: nat)
    requires Run(states, actions) && i < |actions|
    ensures var s := states[i]; var q := states[i + 1];
      match actions[i]
      case Select(ready) =>
        q == s.(pc := Naming(ready), msg := if s.msg.Some? then s.msg else Some(Buffer(0, [], 0, s.nodeSize)))
      case OfferNames(pushed) =>
        && s.msg.Some? && s.pc.Naming?
        && if s.spool.names.None? then q == s.(pc := Receiving(s.pc.ready))
           else if pushed then
             && q.queue == s.queue + [Files(s.spool.names.value)]
             && (s.spool.listed != [] ==> SeenBySender(s.spool.names.value) == s.spool.listed)
             && q.spool == s.spool.(count := 0, names := None, open := None, openSize := 0, listed := [])
             && q == s.(pc := Receiving(s.pc.ready), queue := q.queue, spool := q.spool, msg := Some(s.msg.value.(kind := 0)))
           else q == s.(pc := Receiving(s.pc.ready), msg := Some(s.msg.value.(kind := 1)))
      case Receive(got) =>
        && s.msg.Some? && s.pc.Receiving?
        && var b := s.msg.value;
           if got.None? then q == s.(pc := Flushing(s.pc.ready))
           else
             var c := Chunk(|s.received|, got.value);
             q == s.(pc := Flushing(s.pc.ready), received := s.received + [c],
                     msg := Some(Buffer(b.kind, b.chunks + [c], b.len + got.value, b.cap)))
      case _ => true
  {
    hide SentSettled, InOrder, Everything, Init, Write, MustFlush, Names.Walk, Pack, Holds, Total;
    RunKeeps(states, actions, i);
    RunKeeps(states, actions, i + 1);
    NoOverflow(states[i]);
    NoOverflow(states[i + 1]);
    VisibleIsListed(states[i].spool) by { ListOf(states[i]); }
  }

  lemma NoOverflow(s: State)
    requires Inv(s)
    ensures !s.overflow
  {
    hide SpoolInv, SentSettled, InOrder, Everything;
  }

  lemma ListOf(s: State)
    requires Inv(s)
    ensures ListInv(s.spool)
  {
    hide SentSettled, InOrder, Everything, ListInv, Total;
  }

  /** A spill keeps the message, zeroed with its size, exactly when the file system takes it and there is
      a place: in the open file, or in a new one while fewer than the maximum are listed. */
  lemma SpillExactly(states: seq<State>, actions: seq<Action>, i: nat)
    requires Run(states, actions) && i < |actions| && actions[i].Spill?
    ensures states[i].msg.Some? && states[i + 1].pc.Top?
    ensures var s := states[i]; var at := actions[i].a; var b := s.msg.value.chunks;
      states[i + 1].msg == if at.written && (FitsOpen(s.spool, b) || (s.spool.count < s.spool.maxCount && at.created))
        then Some(Buffer(0, [], 0, 0)) else None
  {
    hide SpoolInv, SentSettled, GateInv, RoomInv, InOrder, Everything, Init, Write, Spool.Reset, FitsOpen;
    RunKeeps(states, actions, i);
    WriteSucceedsExactly(states[i].spool, states[i].disk, states[i].msg.value.chunks, actions[i].a);
  }

  /** What the receiver can do next: always something, whatever the clock, the socket, the queue and the
      file system answer; a push can succeed exactly when there is something to push and a free place. */
  lemma ReceiverNeverStuck(states: seq<State>, actions: seq<Action>, i: nat)
    requires Run(states, actions) && i <= |actions|
    ensures var s := states[i]; var free := |s.queue| < s.queueMax;
      match s.pc
      case Top => forall ready :: Enabled(s, Select(ready))
      case Naming(_) => Enabled(s, OfferNames(false)) && (Enabled(s, OfferNames(true)) <==> s.spool.names.Some? && free)
      case Receiving(ready) =>
        Enabled(s, Receive(None)) && forall n :: Enabled(s, Receive(Some(n))) <==> ready && n <= 4096
      case Flushing(ready) =>
        && s.msg.Some? && Enabled(s, Flush(false))
        && (Enabled(s, Flush(true)) <==> MustLeave(s.msg.value, !ready) && s.spool.names.None? && free)
      case Spilling =>
        forall at: Attempt :: Enabled(s, Spill(at)) <==>
          at.name !in s.disk && at.name != [] && 0 !in at.name && |at.name| <= 255
  {
    hide SpoolInv, SentSettled, RoomInv, InOrder, Everything, Init, Next;
    RunKeeps(states, actions, i);
  }

  // ----- The sender -----

  /** What the sender can do next: take a message exactly when it has none and there is one, and send,
      with any outcome, whatever it holds but an exhausted list. Every file on a list it holds exists. */
  lemma SenderMoves(states: seq<State>, actions: seq<Action>, i: nat)
    requires Run(states, actions) && i <= |actions|
    ensures var s := states[i];
      && (Enabled(s, Take) <==> s.hand.None? && s.queue != [])
      && (forall o :: Enabled(s, Send(o)) <==>
            s.hand.Some? && (s.hand.value.Files? ==> SeenBySender(s.hand.value.names) != []))
      && (s.hand.Some? && s.hand.value.Files? ==> forall n :: n in SeenBySender(s.hand.value.names) ==> n in s.disk)
  {
    hide SpoolInv, GateInv, RoomInv, InOrder, Everything, Init, Next, SeenBySender, MustFlush;
    RunKeeps(states, actions, i);
  }

  /** Each outcome of a send: a success puts the message, or the first file, out; a refusal gives it up;
      a network error changes nothing. A list then loses its first name, and stays in hand even empty. */
  lemma SendExactly(states: seq<State>, actions: seq<Action>, i: nat)
    requires Run(states, actions) && i < |actions| && actions[i].Send?
    ensures states[i].hand.Some?
    ensures var s := states[i]; var q := states[i + 1]; var o := actions[i].outcome;
      match s.hand.value
      case Data(chunks) =>
        q == if o.Success? then s.(delivered := s.delivered + chunks, hand := None)
             else if o.ErrNet? then s
             else s.(hand := None)
      case Files(m) =>
        && SeenBySender(m) != [] && SeenBySender(m)[0] in s.disk
        && if o.ErrNet? then q == s
           else
             && q.hand.Some? && q.hand.value.Files? && SeenBySender(q.hand.value.names) == SeenBySender(m)[1..]
             && q == s.(hand := q.hand,
                        delivered := if o.Success? then s.delivered + Spooling.Flat(s.disk[SeenBySender(m)[0]]) else s.delivered)
  {
    hide Init, SeenBySender, Names.Forward, Spooling.Flat;
    if states[i].hand.Some? && states[i].hand.value.Files? {
      WalkSteps(states[i].hand.value.names);
    }
  }

  /** Taking moves the oldest queued message to the sender's hand. */
  lemma TakeExactly(states: seq<State>, actions: seq<Action>, i: nat)
    requires Run(states, actions) && i < |actions| && actions[i].Take?
    ensures states[i].hand.None? && states[i + 1].hand.Some?
    ensures states[i].queue == [states[i + 1].hand.value] + states[i + 1].queue
    ensures states[i + 1] == states[i].(hand := states[i + 1].hand, queue := states[i + 1].queue)
  {
    hide Init;
  }
}
