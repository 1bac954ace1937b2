/** What a log accepts, told from the print calls: the text a thread formatted in this call, whole, once,
    however long the call waited for room. */
module PrintCalls {
  import opened Wrappers
  import opened Bytes
  import opened Segments
  import opened Ring
  import opened LogSystem
  import opened LogSafety
  import opened LogTheorems

  /** The bytes of "[LOG TOO LONG, DISCARD]" and a newline. */
  const DISCARD_BYTES: seq<byte> :=
    [91, 76, 79, 71, 32, 84, 79, 79, 32, 76, 79, 78, 71, 44, 32, 68, 73, 83, 67, 65, 82, 68, 93, 10]

  /** The text a callback asks for: as many bytes of the buffer as it says, or the notice when they would
      not have fitted. */
  function Printed(f: Formatted): Line
    requires f.ret > 0 && |f.buff| == 1024
  {
    if f.ret < 1024 then f.buff[..f.ret] else DISCARD_BYTES
  }

  lemma DiscardText()
    ensures DiscardLine() == DISCARD_BYTES
  {
    var d := DiscardLine();
    forall i | 0 <= i < 24
      ensures d[i] == DISCARD_BYTES[i]
    {
      DiscardByte(i);
    }
  }

  lemma DiscardByte(i: nat)
    requires i < 24
    ensures DISCARD_TEXT[i] as int % 0x100 == DISCARD_BYTES[i]
  {
    if i < 8 {
      assert DISCARD_TEXT[..8] == "[LOG TOO";
    } else if i < 16 {
      assert DISCARD_TEXT[8..16] == " LONG, D";
    } else {
      assert DISCARD_TEXT[16..] == "ISCARD]\n";
    }
  }

  lemma PrintedIsLine(f: Formatted)
    requires f.ret > 0 && |f.buff| == MAX_LINE
    ensures LineOf(f) == Printed(f)
  {
    DiscardText();
  }

  /** The last text thread t formatted. */
  function LastPrint(actions: seq<Action>, i: nat, t: nat): Option<Formatted>
    requires i <= |actions|
  {
    if i == 0 then None
    else if actions[i - 1].Print? && actions[i - 1].t == t then Some(actions[i - 1].f)
    else LastPrint(actions, i - 1, t)
  }

  function TextOfPrint(o: Option<Formatted>): Line
  {
    if o.Some? && o.value.ret > 0 && |o.value.buff| == 1024 then Printed(o.value) else []
  }

  lemma StepPc(s: State, a: Action, t: nat)
    requires Enabled(s, a)
    ensures var p, q := s.Pc(t), Next(s, a).Pc(t);
      (q.Ready? || q.Waiting?) ==>
        if a.Print? && a.t == t then a.f.ret > 0 && |a.f.buff| == MAX_LINE && q.line == LineOf(a.f)
        else (p.Ready? || p.Waiting?) && q.line == p.line
  {
    hide Decode, Frame, LineOf;
  }

  /** A thread on its way into the log carries the text of its own last formatting, before, during and
      after any waits. */
  lemma {:induction false} CarriesItsText(states: seq<State>, actions: seq<Action>, i: nat, t: nat)
    requires Run(states, actions) && i <= |actions| && (states[i].Pc(t).Ready? || states[i].Pc(t).Waiting?)
    ensures states[i].Pc(t).line == TextOfPrint(LastPrint(actions, i, t)) != []
  {
    hide Enabled, Next, Modest, Printed, LineOf;
    if i > 0 {
      StepPc(states[i - 1], actions[i - 1], t);
      if actions[i - 1].Print? && actions[i - 1].t == t {
        PrintedIsLine(actions[i - 1].f);
      } else {
        CarriesItsText(states, actions, i - 1, t);
      }
    }
  }

  /** The texts of the print calls that went through: at each lock step that found room, what that thread
      formatted last. */
  ghost function PrintedIn(states: seq<State>, actions: seq<Action>, i: nat): seq<Line>
    requires i <= |actions| && |states| == |actions| + 1
  {
    if i == 0 then []
    else if actions[i - 1].Lock? && states[i - 1].ring.HasRoom() then
      PrintedIn(states, actions, i - 1) + [TextOfPrint(LastPrint(actions, i - 1, actions[i - 1].t))]
    else PrintedIn(states, actions, i - 1)
  }

  /** The log accepts exactly these texts. */
  lemma {:induction false} AcceptedIsPrinted(states: seq<State>, actions: seq<Action>, i: nat)
    requires Run(states, actions) && i <= |actions|
    ensures AcceptedIn(states, actions, i) == PrintedIn(states, actions, i)
  {
    hide Next, Modest, TextOfPrint, LastPrint, Ring.HasRoom, Ring.Room;
    if i > 0 {
      AcceptedIsPrinted(states, actions, i - 1);
      if actions[i - 1].Lock? {
        AcceptedWithRoom(states, actions, i - 1);
        CarriesItsText(states, actions, i - 1, actions[i - 1].t);
      }
    }
  }

  /** From the print calls to the output, on a plain log: the texts that went through, end to end, are
      the bytes put out followed by the bytes still owed. */
  lemma PrintedComesOut(states: seq<State>, actions: seq<Action>, i: nat)
    requires Run(states, actions) && i <= |actions| && !states[0].segment
    ensures states[i].ring.Shape()
    ensures Flat(false, PrintedIn(states, actions, i)) == TextOf(states[i].out) + Owed(states[i])
  {
    hide Run, Flat, TextOf, Owed, PrintedIn, AcceptedIn, Ring.Shape;
    AcceptedIsPrinted(states, actions, i);
    FifoStream(states, actions, i);
  }

  /** The same on a segment log, text by text. */
  lemma PrintedRecordsComeOut(states: seq<State>, actions: seq<Action>, i: nat)
    requires Run(states, actions) && i <= |actions| && states[0].segment
    ensures TextsOf(states[i].out) <= PrintedIn(states, actions, i)
    ensures states[i].ring.Shape()
    ensures Flat(true, PrintedIn(states, actions, i)[|TextsOf(states[i].out)|..]) == Owed(states[i])
  {
    hide Run, Flat, TextsOf, Owed, PrintedIn, AcceptedIn, Ring.Shape;
    AcceptedIsPrinted(states, actions, i);
    FifoRecords(states, actions, i);
  }

  // ----- What can happen next -----

  /** The worker's side of a state, in every run: it may take a snapshot exactly when there are unread
      bytes; during a pass exactly one of going on with the output, announcing drops and committing is
      possible. */
  lemma WorkerNeverStuck(states: seq<State>, actions: seq<Action>, i: nat)
    requires Run(states, actions) && i <= |actions|
    ensures var s := states[i];
      && s.ring.Shape()
      && (Enabled(s, Begin) <==> s.worker.Resting? && s.ring.Unread() != [])
      && (s.worker.Writing? ==>
            var left := s.worker.pos < s.worker.snap.len + s.worker.snap.extLen;
            var owing := s.worker.drops > 0 && !s.worker.reported;
            && (forall n :: n > 0 ==> (Enabled(s, Emit(n)) <==> left))
            && (Enabled(s, Notice) <==> !left && owing)
            && (Enabled(s, Commit) <==> !left && !owing))
  {
    hide Init, Next, Modest, Ring.Unread, Ring.Shape;
    RunKeeps(states, actions, i);
    NoFault(states[i]);
    DropsInHand(states[i]);
    TakeCoversUnread(states[i].ring);
  }

  lemma DropsInHand(s: State)
    requires Inv(s)
    ensures s.worker.Writing? && s.worker.drops == 0 ==> !s.worker.reported
  {
  }

  /** A printing thread can always take the next step of its call, whatever its callback returns. */
  lemma PrinterNeverStuck(states: seq<State>, actions: seq<Action>, i: nat, t: nat)
    requires Run(states, actions) && i <= |actions|
    ensures match states[i].Pc(t)
      case Idle => Enabled(states[i], Enter(t))
      case Formatting => forall f: Formatted :: |f.buff| == 1024 ==> Enabled(states[i], Print(t, f))
      case Ready(_, _) => Enabled(states[i], Lock(t))
      case Waiting(_, _) => Enabled(states[i], Wake(t))
  {
    hide Init, Next, Modest, Inv;
    RunKeeps(states, actions, i);
    NoFault(states[i]);
  }

  /** A snapshot takes every unread byte and all refusals counted so far. */
  lemma BeginTakesAll(states: seq<State>, actions: seq<Action>, i: nat)
    requires Run(states, actions) && i < |actions| && actions[i].Begin?
    ensures var s := states[i]; var q := states[i + 1];
      && s.ring.Shape() && q.ring == s.ring && q.dropped == 0 && q.out == s.out
      && q.worker.Writing? && q.worker.pos == 0 && q.worker.drops == s.dropped
      && s.ring.InBounds(q.worker.snap) && s.ring.Slices(q.worker.snap) == s.ring.Unread()
  {
    hide Inv, Init, Modest, Ring.Unread, Ring.Shape, Ring.Slices, Ring.InBounds, Ring.Take;
    RunKeeps(states, actions, i);
    NoFault(states[i]);
    TakeCoversUnread(states[i].ring);
  }

  /** What one piece of output is: on a plain log as many bytes as the callback takes, up to the end of
      the slice; on a segment log the next accepted text, whole. The output always gets on. */
  lemma EmitExactly(states: seq<State>, actions: seq<Action>, i: nat)
    requires Run(states, actions) && i < |actions| && actions[i].Emit?
    ensures states[i].worker.Writing?
    ensures var s := states[i]; var q := states[i + 1]; var w := s.worker;
      var stop := if w.pos < w.snap.len then w.snap.len else w.snap.len + w.snap.extLen;
      && w.taken <= |s.Held()| && q.worker.Writing? && q.ring == s.ring
      && if s.segment then
           && w.emitted < w.taken
           && q.out == s.out + [Text(s.Held()[w.emitted])]
           && q.worker.pos == w.pos + |s.Held()[w.emitted]| + 7 <= stop
         else
           && q.worker.pos == (if w.pos + actions[i].n <= stop then w.pos + actions[i].n else stop)
           && 0 <= w.pos < q.worker.pos <= |Flat(false, s.Held())|
           && q.out == s.out + [Text(Flat(false, s.Held())[w.pos..q.worker.pos])]
  {
    hide RingInv, FlightInv, OutInv, ProducersInv, CountInv, Init, Modest, Flat, Frame, Decode, Address;
    var s := states[i];
    RunKeeps(states, actions, i);
    if s.segment {
      NextRecord(s);
      FrameSize(s.Held()[s.worker.emitted]);
    } else {
      NextStretch(s, actions[i].n);
      PosRange(s.segment, s.done, s.Held(), s.worker, s.out);
    }
  }

  lemma FrameSize(line: Line)
    ensures |Frame(true, line)| == |line| + 7
  {
  }
}
