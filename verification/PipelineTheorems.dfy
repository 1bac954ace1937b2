/** The promises of the pipeline, over every run before quit is notified. */
module PipelineTheorems {
  import opened NameList
  import opened Wrappers
  import opened Spooling
  import opened Pipeline
  import opened PipelineSafety

  /** The chunks a run received, numbered in the order received, told from its actions alone. */
  ghost function ReceivedIn(actions: seq<Action>, i: nat): seq<Chunk>
    requires i <= |actions|
  {
    if i == 0 then []
    else
      var before := ReceivedIn(actions, i - 1);
      var a := actions[i - 1];
      before + if a.Receive? && a.got.Some? then [Chunk(|before|, a.got.value)] else []
  }

  lemma StepReceived(s: State, a: Action)
    requires Enabled(s, a)
    ensures Next(s, a).received == s.received + if a.Receive? && a.got.Some? then [Chunk(|s.received|, a.got.value)] else []
  {
    hide SeenBySender, Write;
  }

  lemma {:induction false} ReceivedIsHistory(states: seq<State>, actions: seq<Action>, i: nat)
    requires Run(states, actions) && i <= |actions|
    ensures states[i].received == ReceivedIn(actions, i)
  {
    hide Next, Enabled;
    if i > 0 {
      ReceivedIsHistory(states, actions, i - 1);
      StepReceived(states[i - 1], actions[i - 1]);
    }
  }

  /** End-to-end order: at every moment, what was delivered, what the sender holds, what is queued
      with file lists expanded, what is spooled and the current buffer, taken in this order, are
      received chunks in the order received, none twice. */
  lemma EndToEndOrder(states: seq<State>, actions: seq<Action>, i: nat)
    requires Run(states, actions) && i <= |actions|
    ensures InOrder(Everything(states[i]), ReceivedIn(actions, i))
    ensures InOrder(states[i].delivered, ReceivedIn(actions, i))
    ensures |states[i].queue| <= states[i].queueMax
  {
    hide SpoolInv, SentSettled, GateInv, RoomInv, InOrder, Expand, ExpandAll, Text, Init, Enabled, Next, ReceivedIn;
    RunKeeps(states, actions, i);
    ReceivedIsHistory(states, actions, i);
    assert states[i].delivered <= Everything(states[i]);
    OrderPrefix(states[i].delivered, Everything(states[i]), states[i].received);
  }

  /** No send is refused by the server or the system, and every spool write finds a place for its message
      and a file system that takes it. */
  predicate Benign(s: State, a: Action)
  {
    && (a.Send? ==> a.outcome.Success? || a.outcome.ErrNet?)
    && (a.Spill? && s.msg.Some? ==>
          && a.a.written
          && (|| (s.spool.open.Some? && s.spool.openSize + Size(s.msg.value.chunks) <= s.spool.maxSize)
              || (s.spool.count < s.spool.maxCount && a.a.created)))
  }

  lemma SpillSucceeds(s: State, at: Attempt)
    requires Inv(s) && Enabled(s, Spill(at)) && Benign(s, Spill(at))
    ensures s.msg.Some? && Write(s.spool, s.disk, s.msg.value.chunks, at).ok
  {
    hide SpoolInv, SentSettled, GateInv, RoomInv, InOrder, Everything, Size, Write;
    WriteSucceedsExactly(s.spool, s.disk, s.msg.value.chunks, at);
  }

  lemma StepLosesNothing(s: State, a: Action)
    requires Inv(s) && Enabled(s, a) && Benign(s, a)
    requires s.spool.names.Some? ==> s.spool.listed != []
    ensures Everything(Next(s, a)) == Everything(s) + if a.Receive? && a.got.Some? then [Chunk(|s.received|, a.got.value)] else []
    ensures Next(s, a).spool.names.Some? ==> Next(s, a).spool.listed != []
  {
    hide Inv, SeenBySender, Write, MustFlush, Everything, Size;
    match a
    case Select(ready) => SelectKeeps(s, ready);
    case OfferNames(pushed) => OfferKeeps(s, pushed);
    case Receive(got) => ReceiveKeeps(s, got);
    case Flush(pushed) => FlushKeeps(s, pushed);
    case Spill(at) => SpillSucceeds(s, at); SpillOrder(s, at); WriteLists(s.spool, s.disk, s.msg.value.chunks, at);
    case Take => TakeKeeps(s);
    case Send(outcome) =>
      if outcome.ErrNet? {
      } else if s.hand.value.Files? {
        SendFileKeeps(s, outcome);
      } else {
        SendDataKeeps(s, outcome);
      }
  }

  lemma WriteLists(s: Spool, disk: Disk, b: Batch, a: Attempt)
    requires s.names.Some? ==> s.listed != []
    ensures Write(s, disk, b, a).ok && Write(s, disk, b, a).spool.names.Some? ==> Write(s, disk, b, a).spool.listed != []
  {
    hide Size;
  }

  /** Conservation: while sends succeed or are retried and spool writes succeed, every received chunk
      is delivered or in flight, exactly once; however often queue pushes time out. */
  lemma {:induction false} NothingLost(states: seq<State>, actions: seq<Action>, i: nat)
    requires Run(states, actions) && i <= |actions|
    requires forall k :: 0 <= k < i ==> Benign(states[k], actions[k])
    ensures Everything(states[i]) == ReceivedIn(actions, i)
    ensures states[i].spool.names.Some? ==> states[i].spool.listed != []
  {
    hide Inv, Next, Enabled, Benign, Everything;
    if i == 0 {
      StartEmpty(states[0]);
    } else {
      NothingLost(states, actions, i - 1);
      RunKeeps(states, actions, i - 1);
      ReceivedIsHistory(states, actions, i - 1);
      StepLosesNothing(states[i - 1], actions[i - 1]);
    }
  }

  lemma StartEmpty(s: State)
    requires Init(s)
    ensures Everything(s) == [] && s.spool.names.None?
  {
    NoText(s.spool, s.disk);
    ExpandNil(s.disk);
  }

  /** A buffer message is queued only when no name list is pending and nothing is spooled. */
  lemma DataNeverOvertakes(states: seq<State>, actions: seq<Action>, i: nat)
    requires Run(states, actions) && i < |actions| && actions[i].Flush? && actions[i].pushed
    ensures states[i].spool.names.None? && Text(states[i].spool, states[i].disk) == []
    ensures states[i].msg.Some?
    ensures states[i + 1].queue == states[i].queue + [Data(states[i].msg.value.chunks)]
  {
    hide SpoolInv, SentSettled, RoomInv, InOrder, Everything, Init;
    RunKeeps(states, actions, i);
    NoText(states[i].spool, states[i].disk);
  }

  /** Before every receive the current message has a whole receive's room after `len`, although the
      zeroing has wiped its `cap`; and a receive never overflows it. */
  lemma ReceiveHasRoom(states: seq<State>, actions: seq<Action>, i: nat)
    requires Run(states, actions) && i <= |actions|
    ensures !states[i].overflow
    ensures states[i].pc.Receiving? ==> states[i].msg.Some?
    ensures states[i].pc.Receiving? ==> states[i].msg.value.len + MAX_BUFF_SIZE <= states[i].nodeSize
    ensures states[i].pc.Receiving? ==>
      states[i].msg.value.cap == states[i].nodeSize || states[i].msg.value.cap == states[i].msg.value.len == 0
  {
    hide SpoolInv, SentSettled, InOrder, Everything, Init, Next, Enabled;
    RunKeeps(states, actions, i);
  }

  /** The spool's bounds in every reachable state. */
  lemma SpoolStaysBounded(states: seq<State>, actions: seq<Action>, i: nat)
    requires Run(states, actions) && i <= |actions|
    ensures var s := states[i].spool; var disk := states[i].disk;
      && 0 <= s.count <= s.maxCount && (s.open.None? ==> s.count < s.maxCount)
      && !s.overrun
      && s.count == |s.listed|
      && (s.names.Some? ==> s.names.value.len == |Pack(s.listed)|)
      && (s.names.Some? ==> 0 <= s.names.value.len <= |s.names.value.data| == (s.maxCount + 1) * NAME_ROOM)
      && (s.open.Some? ==> s.listed != [] && s.listed[|s.listed| - 1] == s.open.value)
      && (forall n :: n in disk ==> Total(disk[n]) <= s.maxSize || |disk[n]| <= 1)
  {
    hide SentSettled, InOrder, Everything, Init, Next, Enabled, GateInv, RoomInv, Pack, Total;
    RunKeeps(states, actions, i);
  }

  /** A failed spool write costs the message and at most the file that was open: no file is open
      afterwards, its name is off the list, and what else was spooled stays. */
  lemma FailedWriteGivesUpFile(states: seq<State>, actions: seq<Action>, i: nat)
    requires Run(states, actions) && i < |actions| && actions[i].Spill?
    ensures states[i].msg.Some?
    ensures var w := Write(states[i].spool, states[i].disk, states[i].msg.value.chunks, actions[i].a);
      !w.ok ==>
        && states[i + 1].msg.None? && states[i + 1].spool.open.None?
        && Text(states[i + 1].spool, states[i + 1].disk) <= Text(states[i].spool, states[i].disk)
        && (w.spool.open.Some? ==>
              |w.spool.listed| >= 1
              && states[i + 1].spool.listed == w.spool.listed[..|w.spool.listed| - 1])
        && (w.spool.open.None? ==> states[i + 1].spool.listed == w.spool.listed)
  {
    hide SpoolInv, SentSettled, GateInv, RoomInv, InOrder, Everything, Init, Text, Write, Spool.Reset;
    var s := states[i];
    RunKeeps(states, actions, i);
    var b := s.msg.value.chunks;
    var w := Write(s.spool, s.disk, b, actions[i].a);
    if !w.ok {
      FailText(s.spool, s.disk, b, actions[i].a);
      WriteKeeps(s.spool, s.disk, b, actions[i].a);
      ResetKeeps(w.spool, w.disk);
      ResetOpen(w.spool);
      ListedWhenOpen(w.spool, w.disk);
    }
  }

  lemma ListedWhenOpen(s: Spool, disk: Disk)
    requires SpoolInv(s, disk)
    ensures s.open.Some? ==> |s.listed| >= 1
  {
    hide ListInv, Total;
  }

  /** The file branch of the sender never gives its message up: once a name list is in its hand it
      stays there, and nothing queued behind it is ever taken. */
  lemma {:induction false} SenderKeepsNameList(states: seq<State>, actions: seq<Action>, i: nat, j: nat)
    requires Run(states, actions) && i <= j <= |actions|
    requires states[i].hand.Some? && states[i].hand.value.Files?
    ensures states[j].hand.Some? && states[j].hand.value.Files?
    ensures j < |actions| ==> !actions[j].Take?
  {
    hide Init, Everything, Next, Enabled;
    if i < j {
      SenderKeepsNameList(states, actions, i, j - 1);
      HandStays(states[j - 1], actions[j - 1]);
    }
    if j < |actions| {
      HandBlocks(states[j], actions[j]);
    }
  }

  lemma HandBlocks(s: State, a: Action)
    requires Enabled(s, a) && s.hand.Some?
    ensures !a.Take?
  {
    hide SeenBySender, MustFlush, FreshName;
  }

  lemma HandStays(s: State, a: Action)
    requires Enabled(s, a) && s.hand.Some? && s.hand.value.Files?
    ensures Next(s, a).hand.Some? && Next(s, a).hand.value.Files?
  {
    hide SeenBySender, Write, MustFlush, FreshName;
  }
}
