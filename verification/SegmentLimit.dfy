/** How long a text a segment log can take: the room test leaves out the seven bytes of framing, and
    the run that this costs an accepted record. */
module SegmentLimit {
  import opened Segments
  import opened Ring
  import opened LogSystem
  import opened LogSafety
  import opened LogTheorems

  predicate Capped(a: Action, cap: nat)
  {
    a.Print? && a.f.ret > 0 && |a.f.buff| == MAX_LINE ==> |LineOf(a.f)| <= cap
  }

  /** A run of a segment log in which no text is longer than `cap`. */
  ghost predicate CappedRun(states: seq<State>, actions: seq<Action>, cap: nat)
  {
    && |states| == |actions| + 1
    && Init(states[0]) && states[0].segment
    && (forall i :: 0 <= i < |actions| ==> Enabled(states[i], actions[i]) && states[i + 1] == Next(states[i], actions[i]))
    && (forall i :: 0 <= i < |actions| ==> Capped(actions[i], cap))
  }

  /** No append left the buffer, and a log that is drained has put out all it accepted. */
  ghost predicate Lossless(states: seq<State>, actions: seq<Action>, i: nat)
    requires i <= |actions| && |states| == |actions| + 1
  {
    var s := states[i];
    !s.fault && (s.worker.Resting? && !s.ring.HasData() ==> TextsOf(s.out) == AcceptedIn(states, actions, i))
  }

  ghost predicate AlwaysLossless(cap: nat)
  {
    forall states: seq<State>, actions: seq<Action>, i: nat ::
      CappedRun(states, actions, cap) && i <= |actions| ==> Lossless(states, actions, i)
  }

  // ----- Short enough texts -----

  lemma CappedIsRun(states: seq<State>, actions: seq<Action>, cap: nat)
    requires CappedRun(states, actions, cap) && cap + FRAME_OVERHEAD < MAX_LINE
    ensures Run(states, actions)
  {
    hide Init, Enabled, Next;
  }

  lemma DrainedIsLossless(states: seq<State>, actions: seq<Action>, i: nat)
    requires Run(states, actions) && states[0].segment && i <= |actions|
    ensures Lossless(states, actions, i)
  {
    hide Inv, Init, Next, Enabled, Modest, AcceptedIn, TextsOf, Frame;
    var s := states[i];
    RunKeeps(states, actions, i);
    NoFault(s);
    FifoRecords(states, actions, i);
    if s.worker.Resting? && !s.ring.HasData() {
      TakeCoversUnread(s.ring);
      var rest := AcceptedIn(states, actions, i)[|TextsOf(s.out)|..];
      if rest != [] {
        FlatCons(true, rest);
      }
    }
  }

  // ----- The losing run -----

  lemma {:induction false} AcceptedOfPrefix(states: seq<State>, actions: seq<Action>, a: Action, s: State, i: nat)
    requires |states| == |actions| + 1 && i <= |actions|
    ensures AcceptedIn(states + [s], actions + [a], i) == AcceptedIn(states, actions, i)
  {
    hide Accepts;
    if i > 0 {
      AcceptedOfPrefix(states, actions, a, s, i - 1);
    }
  }

  /** A run under construction, with its last state and what it accepted. */
  datatype Trace = Trace(states: seq<State>, actions: seq<Action>)
  {
    ghost predicate Good(cap: nat) { |states| == |actions| + 1 && CappedRun(states, actions, cap) }

    function Last(): State
      requires |states| == |actions| + 1
    {
      states[|actions|]
    }

    ghost function Took(): seq<Line>
      requires |states| == |actions| + 1
    {
      AcceptedIn(states, actions, |actions|)
    }
  }

  lemma Extend(r: Trace, a: Action, cap: nat) returns (q: Trace)
    requires r.Good(cap) && Enabled(r.Last(), a) && Capped(a, cap)
    ensures q.Good(cap) && q.Last() == Next(r.Last(), a)
    ensures q.Took() == r.Took() + if Accepts(r.Last(), a) then [r.Last().Pc(a.t).line] else []
  {
    hide Enabled, Next, Init, Accepts, Capped;
    var s := Next(r.Last(), a);
    q := Trace(r.states + [s], r.actions + [a]);
    AcceptedOfPrefix(r.states, r.actions, a, s, |r.actions|);
  }

  /** Nobody is in a call and the worker rests. */
  ghost predicate Calm(s: State)
  {
    !s.fault && s.segment && s.dropped == 0 && s.worker.Resting? && s.Pc(0).Idle?
  }

  /** One thread prints one text into a log that has room. */
  lemma PrintOne(r: Trace, line: Line, cap: nat) returns (q: Trace)
    requires r.Good(cap) && Calm(r.Last()) && 0 < |line| <= cap && |line| < MAX_LINE
    requires r.Last().ring.HasRoom() && r.Last().ring.Fits(|Frame(true, line)|)
    ensures q.Good(cap) && Calm(q.Last())
    ensures q.Last().ring == r.Last().ring.Append(Frame(true, line))
    ensures q.Last().out == r.Last().out && q.Took() == r.Took() + [line]
  {
    hide CappedRun, AcceptedIn, Frame, Ring.Append, Ring.Fits;
    var f := Formatted(|line|, line + seq(MAX_LINE - |line|, _ => 0));
    assert LineOf(f) == line;
    var r1 := Extend(r, Enter(0), cap);
    var r2 := Extend(r1, Print(0, f), cap);
    q := Extend(r2, Lock(0), cap);
  }

  /** The worker makes one pass over a log whose snapshot is a single record. */
  lemma PassOne(r: Trace, line: Line, cap: nat) returns (q: Trace)
    requires r.Good(cap) && Calm(r.Last()) && r.Last().ring.HasData() && |line| < MAX_LINE
    requires var g := r.Last().ring; g.InBounds(g.Take()) && g.Take().extLen == 0 && g.Slices(g.Take()) == Frame(true, line)
    ensures q.Good(cap) && Calm(q.Last())
    ensures q.Last().ring == r.Last().ring.Release(r.Last().ring.Take())
    ensures TextsOf(q.Last().out) == TextsOf(r.Last().out) + [line] && q.Took() == r.Took()
  {
    hide CappedRun, AcceptedIn, Frame, Decode, TextsOf, Ring.Take, Ring.Release;
    var s := r.Last();
    var snap := s.ring.Take();
    assert s.ring.buff[..0] == [];
    assert s.ring.Slices(snap) == s.ring.buff[s.ring.start..s.ring.start + snap.len];
    DecodeFrame(s.ring.buff, s.ring.start, line);
    var r1 := Extend(r, Begin, cap);
    var r2 := Extend(r1, Emit(1), cap);
    OutSnoc(s.out, Text(line));
    assert r2.Last().worker.pos == snap.len && r2.Last().out == s.out + [Text(line)];
    q := Extend(r2, Commit, cap);
  }

  /** The losing run: a text whose record is exactly a line long, a pass, a short text that wraps the
      buffer, and the long one again, which fills the gap exactly. The next pass puts out the short
      text and leaves the log drained, the last one gone. */
  lemma LosingRun(cap: nat) returns (q: Trace)
    requires cap + FRAME_OVERHEAD >= MAX_LINE
    ensures q.Good(cap) && !Lossless(q.states, q.actions, |q.actions|)
  {
    hide CappedRun, Init, AcceptedIn, TextsOf, Frame, Empty, Ring.Append, Ring.Take, Ring.Release, Ring.HasRoom, Ring.HasData,
      Ring.Fits, Ring.InBounds, Ring.Slices;
    var long: Line := seq(MAX_LINE - FRAME_OVERHEAD, _ => 0);
    var short: Line := [0];
    q := FreshRun(cap);
    var r1, r2, r3, r4 := OverlongRecordIsLost(q.Last().ring, Frame(true, long), Frame(true, short));
    q := PrintOne(q, long, cap);
    q := PassOne(q, long, cap);
    q := PrintOne(q, short, cap);
    q := PrintOne(q, long, cap);
    q := PassOne(q, short, cap);
    assert |TextsOf(q.Last().out)| == 2 && |q.Took()| == 3;
  }

  /** A fresh segment log of the smallest size `tlog_init` takes. */
  lemma FreshRun(cap: nat) returns (q: Trace)
    ensures q.Good(cap) && Calm(q.Last()) && q.Took() == [] && TextsOf(q.Last().out) == []
    ensures q.Last().ring == Empty(q.Last().ring.buff) && |q.Last().ring.buff| == 2 * MAX_LINE
  {
    var r := Empty(seq(2 * MAX_LINE, _ => 0));
    q := Trace([State(r, true, true, 0, map[], Resting, [], false, [], [], [], 0, 0)], []);
  }

  /** Segment logs lose nothing, in every run whose texts are at most `cap` long, if and only if such a
      text and its framing stay below the line limit. */
  lemma LosslessExactly(cap: nat)
    ensures AlwaysLossless(cap) <==> cap + FRAME_OVERHEAD < MAX_LINE
  {
    hide CappedRun, Lossless;
    if cap + FRAME_OVERHEAD < MAX_LINE {
      forall states: seq<State>, actions: seq<Action>, i: nat | CappedRun(states, actions, cap) && i <= |actions|
        ensures |states| == |actions| + 1 && Lossless(states, actions, i)
      {
        CappedLossless(states, actions, i, cap);
      }
    } else {
      var q := LosingRun(cap);
      assert CappedRun(q.states, q.actions, cap);
    }
  }

  lemma CappedLossless(states: seq<State>, actions: seq<Action>, i: nat, cap: nat)
    requires CappedRun(states, actions, cap) && i <= |actions| && cap + FRAME_OVERHEAD < MAX_LINE
    ensures |states| == |actions| + 1 && Lossless(states, actions, i)
  {
    hide Lossless, Run;
    CappedIsRun(states, actions, cap);
    DrainedIsLossless(states, actions, i);
  }
}
