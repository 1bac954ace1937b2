/** The promises of one log, over every run of any number of printing threads and the worker. */
module LogTheorems {
  import opened Bytes
  import opened Segments
  import opened Ring
  import opened LogSystem
  import opened LogSafety

  // ----- What a run accepted, told from its steps -----

  /** A lock step that goes through to the copy. */
  predicate Accepts(s: State, a: Action)
  {
    a.Lock? && s.Pc(a.t).Ready? && s.ring.Room(s.Pc(a.t).maxlen) >= MAX_LINE
  }

  ghost function AcceptedIn(states: seq<State>, actions: seq<Action>, i: nat): seq<Line>
    requires i <= |actions| && |states| == |actions| + 1
  {
    if i == 0 then []
    else if Accepts(states[i - 1], actions[i - 1]) then
      AcceptedIn(states, actions, i - 1) + [states[i - 1].Pc(actions[i - 1].t).line]
    else AcceptedIn(states, actions, i - 1)
  }

  lemma StepAccepted(s: State, a: Action)
    requires Inv(s) && Enabled(s, a)
    ensures Next(s, a).Accepted() == s.Accepted() + if Accepts(s, a) then [s.Pc(a.t).line] else []
  {
    hide RingInv, FlightInv, OutInv, CountInv, Frame, Decode;
    match a
    case Lock(t) =>
      var p := s.Pc(t);
      RoomByShape(s.ring, p.maxlen) by { ShapeOf(s.segment, s.ring, s.upper, s.lower); }
      if s.ring.HasRoom() {
        NoLower(s.segment, s.ring, s.upper, s.lower);
        AppendRing(s.segment, s.ring, s.upper, s.lower, p.line);
      }
    case Commit => CommitAccepted(s);
    case _ =>
  }

  /** The history variables tell the truth: what the state calls accepted is what the run accepted. */
  lemma {:induction false} AcceptedIsHistory(states: seq<State>, actions: seq<Action>, i: nat)
    requires Run(states, actions) && i <= |actions|
    ensures states[i].Accepted() == AcceptedIn(states, actions, i)
  {
    hide Enabled, Next, Inv, Accepts, Modest;
    if i > 0 {
      AcceptedIsHistory(states, actions, i - 1);
      RunKeeps(states, actions, i - 1);
      StepAccepted(states[i - 1], actions[i - 1]);
    }
  }

  /** Every reachable state has one of the three shapes: linear, wrapped, or full from the very start
      of the buffer; both `start` and `end` leave a line's length free above them; and no append has
      ever left the buffer. */
  lemma ShapeAlways(states: seq<State>, actions: seq<Action>, i: nat)
    requires Run(states, actions) && i <= |actions|
    ensures var r := states[i].ring;
      && !states[i].fault
      && 0 <= r.start <= |r.buff| - MAX_LINE && 0 <= r.end <= |r.buff| - MAX_LINE
      && ((r.extEnd == 0 && r.start <= r.end)
          || r.end < r.start < r.extEnd <= |r.buff|
          || r.start == r.end == 0 < r.extEnd <= |r.buff|)
  {
    hide Inv, Init, Enabled, Next, Modest;
    RunKeeps(states, actions, i);
    NoFault(states[i]);
  }

  // ----- First in, first out -----

  /** The bytes the log still owes its output: the unread ones past the worker's position. */
  function Owed(s: State): seq<byte>
    requires s.ring.Shape()
  {
    if s.worker.Writing? && 0 <= s.worker.pos <= |s.ring.Unread()| then s.ring.Unread()[s.worker.pos..] else s.ring.Unread()
  }

  lemma UnreadIsHeld(segment: bool, r: Ring, upper: seq<Line>, lower: seq<Line>)
    requires RingInv(segment, r, upper, lower)
    ensures r.Shape() && r.Unread() == Flat(segment, upper + lower)
  {
    hide Flat, Frame;
    FlatConcat(segment, upper, lower);
  }

  lemma StreamSplit(done: seq<Line>, held: seq<Line>, w: Worker, out: seq<Event>)
    requires OutInv(false, done, held, w, out)
    ensures w.Resting? ==> Flat(false, done + held) == TextOf(out) + Flat(false, held)
    ensures w.Writing? ==> 0 <= w.pos <= |Flat(false, held)|
    ensures w.Writing? ==> Flat(false, done + held) == TextOf(out) + Flat(false, held)[w.pos..]
  {
    hide Flat, TextOf, TextsOf, Frame;
    FlatConcat(false, done, held);
    if w.Writing? {
      SplitSeq(Flat(false, held), w.pos);
    }
  }

  /** Plain mode: at every moment of every run the accepted lines, end to end, are the bytes put out
      followed by the bytes still owed. Nothing is lost, repeated or reordered, however often the
      buffer wraps. */
  lemma FifoStream(states: seq<State>, actions: seq<Action>, i: nat)
    requires Run(states, actions) && i <= |actions| && !states[0].segment
    ensures states[i].ring.Shape()
    ensures Flat(false, AcceptedIn(states, actions, i)) == TextOf(states[i].out) + Owed(states[i])
  {
    hide RingInv, FlightInv, OutInv, ProducersInv, CountInv, Flat, TextOf, AcceptedIn, Ring.Unread, Ring.Shape;
    var s := states[i];
    RunKeeps(states, actions, i);
    AcceptedIsHistory(states, actions, i);
    UnreadIsHeld(false, s.ring, s.upper, s.lower);
    assert s.Accepted() == s.done + s.Held();
    StreamSplit(s.done, s.Held(), s.worker, s.out);
  }

  lemma RecordSplit(done: seq<Line>, held: seq<Line>, w: Worker, out: seq<Event>)
    requires OutInv(true, done, held, w, out)
    ensures TextsOf(out) <= done + held
    ensures w.Resting? ==> (done + held)[|TextsOf(out)|..] == held
    ensures w.Writing? ==> 0 <= w.pos <= |Flat(true, held)|
    ensures w.Writing? ==> Flat(true, (done + held)[|TextsOf(out)|..]) == Flat(true, held)[w.pos..]
  {
    hide Flat, TextOf, TextsOf, Frame;
    if w.Writing? {
      var e := w.emitted;
      FlatPrefix(true, held, e);
      SplitSeq(held, e);
      assert done + held == (done + held[..e]) + held[e..];
      assert (done + held)[|TextsOf(out)|..] == held[e..];
    }
  }

  /** Segment mode: the texts put out are, in order, a prefix of the accepted lines; the rest are the
      records still in the buffer. */
  lemma FifoRecords(states: seq<State>, actions: seq<Action>, i: nat)
    requires Run(states, actions) && i <= |actions| && states[0].segment
    ensures TextsOf(states[i].out) <= AcceptedIn(states, actions, i)
    ensures states[i].ring.Shape()
    ensures Flat(true, AcceptedIn(states, actions, i)[|TextsOf(states[i].out)|..]) == Owed(states[i])
  {
    hide RingInv, FlightInv, OutInv, ProducersInv, CountInv, Flat, TextsOf, AcceptedIn, Ring.Unread, Ring.Shape;
    var s := states[i];
    RunKeeps(states, actions, i);
    AcceptedIsHistory(states, actions, i);
    UnreadIsHeld(true, s.ring, s.upper, s.lower);
    assert s.Accepted() == s.done + s.Held();
    RecordSplit(s.done, s.Held(), s.worker, s.out);
  }

  /** At every snapshot both slices are whole records: the parser's walk over each ends exactly at
      its end, and the two walks together give the taken lines in order. */
  lemma SlicesParse(states: seq<State>, actions: seq<Action>, i: nat)
    requires Run(states, actions) && i <= |actions| && states[0].segment && states[i].worker.Writing?
    ensures var s := states[i]; var snap := s.worker.snap;
      && s.ring.InBounds(snap) && s.worker.taken <= |s.Held()|
      && ParseEnd(s.ring.buff, s.ring.start, snap.len, 0) == snap.len
      && ParseEnd(s.ring.buff, 0, snap.extLen, 0) == snap.extLen
      && Parse(s.ring.buff, s.ring.start, snap.len, 0) + Parse(s.ring.buff, 0, snap.extLen, 0)
         == s.Held()[..s.worker.taken]
  {
    var s := states[i];
    RunKeeps(states, actions, i);
    TwoParses(s.ring, s.upper, s.lower, s.worker) by { hide Run, RingInv, FlightInv; }
  }

  lemma TwoParses(r: Ring, upper: seq<Line>, lower: seq<Line>, w: Worker)
    requires RingInv(true, r, upper, lower) && FlightInv(true, r, upper, lower, w) && w.Writing?
    ensures r.InBounds(w.snap) && w.taken <= |upper + lower|
    ensures ParseEnd(r.buff, r.start, w.snap.len, 0) == w.snap.len
    ensures ParseEnd(r.buff, 0, w.snap.extLen, 0) == w.snap.extLen
    ensures Parse(r.buff, r.start, w.snap.len, 0) + Parse(r.buff, 0, w.snap.extLen, 0) == (upper + lower)[..w.taken]
  {
    hide Flat, Parse, ParseEnd, Decode;
    var up, low := if w.snap.extEnd == 0 then w.taken else |upper|, if w.snap.extEnd == 0 then 0 else w.taken - |upper|;
    SlicesAreLines(true, r, upper, lower, w);
    assert upper[..|upper|] == upper;
    LinearSlice(true, r, upper, |Flat(true, upper[..up])|, up);
    assert |Flat(true, upper[..up])| == w.snap.len;
    assert r.buff[r.start + 0..r.start + w.snap.len] == Flat(true, upper[..up]);
    assert forall l :: l in upper[..up] ==> l in upper;
    assert forall l :: l in lower[..low] ==> l in lower;
    ParseFlat(r.buff, r.start, w.snap.len, 0, upper[..up]);
    if w.snap.extEnd == 0 {
      FlatNil(true);
      assert r.buff[0..0] == [];
      ParseFlat(r.buff, 0, 0, 0, []);
      assert (upper + lower)[..w.taken] == upper[..up];
    } else {
      LowerSlice(true, r, lower, low);
      assert r.buff[0..w.snap.extLen] == r.buff[..w.snap.extLen];
      ParseFlat(r.buff, 0, w.snap.extLen, 0, lower[..low]);
      PrefixOfConcat(upper, lower, low);
    }
  }

  // ----- Stable slices while the lock is not held -----

  /** From state i to state j the worker neither takes nor commits a snapshot. */
  ghost predicate SamePass(states: seq<State>, actions: seq<Action>, i: nat, j: nat)
    requires |states| == |actions| + 1
  {
    && i <= j <= |actions|
    && states[i].worker.Writing?
    && forall k :: i <= k < j ==> !actions[k].Begin? && !actions[k].Commit?
  }

  /** Wherever a printing thread may append during a pass, it writes outside both slices. */
  lemma AppendAvoidsSlices(r: Ring, segment: bool, upper: seq<Line>, lower: seq<Line>, w: Worker, bytes: seq<byte>)
    requires RingInv(segment, r, upper, lower) && FlightInv(segment, r, upper, lower, w) && w.Writing?
    requires r.HasRoom() && 0 < |bytes| < MAX_LINE
    ensures r.end >= w.snap.extLen
    ensures r.end >= r.start + w.snap.len || r.end + |bytes| <= r.start
    ensures r.Fits(|bytes|) && r.InBounds(w.snap) && r.Append(bytes).InBounds(w.snap)
    ensures r.Append(bytes).start == r.start
    ensures r.Append(bytes).Slices(w.snap) == r.Slices(w.snap)
  {
    hide Flat, Frame;
    SlicesAreLines(segment, r, upper, lower, w);
    SpliceKeeps(r.buff, r.end, bytes, 0, w.snap.extLen);
    SpliceKeeps(r.buff, r.end, bytes, r.start, r.start + w.snap.len);
  }

  /** Overwriting one stretch leaves any stretch beside it alone. */
  lemma SpliceKeeps(b: seq<byte>, at: nat, bytes: seq<byte>, lo: nat, hi: nat)
    requires at + |bytes| <= |b| && lo <= hi <= |b|
    requires hi <= at || at + |bytes| <= lo
    ensures (b[..at] + bytes + b[at + |bytes|..])[lo..hi] == b[lo..hi]
  {
    var c := b[..at] + bytes + b[at + |bytes|..];
    forall k | lo <= k < hi
      ensures c[k] == b[k]
    {
    }
  }

  /** What a lock step does to the ring: nothing, or one append in a ring that has room. */
  lemma LockRing(s: State, t: nat)
    requires Inv(s) && Enabled(s, Lock(t))
    ensures var q := Next(s, Lock(t)); var f := Frame(s.segment, s.Pc(t).line);
      && q.worker == s.worker
      && 0 < |f| < MAX_LINE && s.ring.Shape()
      && if s.ring.HasRoom() then s.ring.Fits(|f|) && q.ring == s.ring.Append(f) else q.ring == s.ring
  {
    hide RingInv, FlightInv, OutInv, CountInv, Frame, Ring.Shape;
    ShapeOf(s.segment, s.ring, s.upper, s.lower);
    RoomByShape(s.ring, s.Pc(t).maxlen);
    if s.ring.HasRoom() {
      AppendKeeps(s.ring, Frame(s.segment, s.Pc(t).line));
    }
  }

  lemma OtherRing(s: State, a: Action)
    requires Enabled(s, a) && !a.Lock? && !a.Commit?
    ensures Next(s, a).ring == s.ring
    ensures s.worker.Writing? && !a.Begin? && !Next(s, a).fault ==> Next(s, a).worker.Writing? && Next(s, a).worker.snap == s.worker.snap
    ensures s.worker.Resting? && !a.Begin? ==> Next(s, a).worker.Resting?
    ensures a.Begin? ==> Next(s, a).worker.Writing? && Next(s, a).worker.snap == s.ring.Take()
  {
    hide Decode;
  }

  lemma StepInPass(s: State, a: Action)
    requires Inv(s) && Enabled(s, a) && s.worker.Writing? && !a.Begin? && !a.Commit?
    requires !Next(s, a).fault
    ensures Next(s, a).worker.Writing? && Next(s, a).worker.snap == s.worker.snap
    ensures s.ring.InBounds(s.worker.snap) && Next(s, a).ring.InBounds(s.worker.snap)
    ensures Next(s, a).ring.start == s.ring.start
    ensures Next(s, a).ring.Slices(s.worker.snap) == s.ring.Slices(s.worker.snap)
    ensures s.ring.extEnd > 0 ==> Next(s, a).ring.extEnd == s.ring.extEnd
  {
    hide RingInv, FlightInv, OutInv, CountInv, ProducersInv, Frame, Next, Ring.Shape, Ring.InBounds, Ring.Slices;
    SlicesAreLines(s.segment, s.ring, s.upper, s.lower, s.worker);
    if a.Lock? {
      LockRing(s, a.t);
      if s.ring.HasRoom() {
        var f := Frame(s.segment, s.Pc(a.t).line);
        AppendAvoidsSlices(s.ring, s.segment, s.upper, s.lower, s.worker, f);
        AppendKeeps(s.ring, f);
      }
    } else {
      OtherRing(s, a);
    }
  }

  /** Between the worker's unlock and its commit, whatever the printing threads do, the snapshot's
      slices lie where they lay and hold the bytes they held; and once the buffer has wrapped in that
      time it does not wrap again. */
  lemma {:induction false} StableSlices(states: seq<State>, actions: seq<Action>, i: nat, j: nat)
    requires Run(states, actions) && SamePass(states, actions, i, j)
    ensures states[j].worker.Writing? && states[j].worker.snap == states[i].worker.snap
    ensures states[j].ring.start == states[i].ring.start
    ensures states[i].ring.InBounds(states[i].worker.snap) && states[j].ring.InBounds(states[i].worker.snap)
    ensures states[j].ring.Slices(states[i].worker.snap) == states[i].ring.Slices(states[i].worker.snap)
    ensures states[i].ring.extEnd > 0 ==> states[j].ring.extEnd == states[i].ring.extEnd
    decreases j - i
  {
    hide Inv, Enabled, Next, Init, Modest, Ring.Slices, Ring.InBounds;
    RunKeeps(states, actions, i);
    if i == j {
      SnapshotInBounds(states[i]);
    } else {
      StableSlices(states, actions, i, j - 1);
      RunKeeps(states, actions, j - 1);
      RunKeeps(states, actions, j);
      NoFault(states[j]);
      StepInPass(states[j - 1], actions[j - 1]);
    }
  }

  lemma NoFault(s: State)
    requires Inv(s)
    ensures !s.fault && s.ring.Shape()
  {
    hide Flat, Frame;
  }

  lemma SnapshotInBounds(s: State)
    requires Inv(s) && s.worker.Writing?
    ensures s.ring.InBounds(s.worker.snap)
  {
    hide RingInv, FlightInv, OutInv, CountInv, ProducersInv;
    SlicesAreLines(s.segment, s.ring, s.upper, s.lower, s.worker);
  }

  /** A step that moves `end` back to the start of the buffer. */
  predicate Wraps(s: State, a: Action)
    requires Enabled(s, a)
  {
    Next(s, a).ring.end < s.ring.end
  }

  lemma WrapNeedsLinear(s: State, a: Action)
    requires Inv(s) && Enabled(s, a) && Wraps(s, a)
    ensures s.ring.extEnd == 0 && Next(s, a).ring.extEnd > 0
  {
    hide Inv, Frame, Next;
    if a.Lock? {
      LockRing(s, a.t);
      if s.ring.HasRoom() {
        AppendKeeps(s.ring, Frame(s.segment, s.Pc(a.t).line));
      }
    } else if a.Commit? {
      CommitEnd(s);
    } else {
      OtherRing(s, a);
    }
  }

  lemma CommitEnd(s: State)
    requires Enabled(s, Commit)
    ensures Next(s, Commit).ring.end == s.ring.end
  {
  }

  /** The buffer wraps at most once while a snapshot is out, and never if it was wrapped already. */
  lemma WrapsOncePerPass(states: seq<State>, actions: seq<Action>, i: nat, j: nat, k: nat)
    requires Run(states, actions) && SamePass(states, actions, i, k) && i <= j < k < |actions|
    requires Wraps(states[j], actions[j])
    ensures !Wraps(states[k], actions[k])
    ensures states[i].worker.snap.extEnd == 0
  {
    hide Inv, Next, Init, Modest, Ring.Slices, Ring.InBounds, Ring.Shape;
    RunKeeps(states, actions, j);
    RunKeeps(states, actions, k);
    WrapNeedsLinear(states[j], actions[j]);
    StableSlices(states, actions, i, j);
    StableSlices(states, actions, i, j + 1);
    assert SamePass(states, actions, j + 1, k);
    StableSlices(states, actions, j + 1, k);
    if Wraps(states[k], actions[k]) {
      WrapNeedsLinear(states[k], actions[k]);
    }
    ExtentInFlight(states[j]);
  }

  lemma ExtentInFlight(s: State)
    requires Inv(s) && s.worker.Writing?
    ensures s.worker.snap.extEnd != 0 ==> s.ring.extEnd == s.worker.snap.extEnd > 0
  {
    hide Flat, Frame, OutInv, ProducersInv, CountInv, RingInv;
  }

  /** A commit clears `ext_end` only if it is the extent the snapshot took; an extent that appeared
      meanwhile survives. Either way the log stays in shape, and after a wrapped snapshot there is room. */
  lemma CommitClearsOwnExtent(states: seq<State>, actions: seq<Action>, i: nat)
    requires Run(states, actions) && i < |actions| && actions[i].Commit?
    ensures states[i].worker.Writing?
    ensures states[i].worker.snap.extEnd > 0 ==>
      states[i].ring.extEnd == states[i].worker.snap.extEnd && states[i + 1].ring.extEnd == 0
    ensures states[i].worker.snap.extEnd == 0 ==> states[i + 1].ring.extEnd == states[i].ring.extEnd
    ensures states[i + 1].ring.Shape() && states[i + 1].worker.Resting?
    ensures states[i + 1].ring.extEnd == 0 ==> states[i + 1].ring.HasRoom()
    ensures states[i].worker.snap.extEnd >= 0
  {
    hide Inv, Init, Modest, Ring.Shape;
    RunKeeps(states, actions, i);
    RunKeeps(states, actions, i + 1);
    ExtentInFlight(states[i]);
    NoFault(states[i + 1]);
    NoExtentHasRoom(states[i + 1].ring);
  }

  lemma NoExtentHasRoom(r: Ring)
    requires r.Shape()
    ensures r.extEnd == 0 ==> r.HasRoom()
  {
  }

  // ----- Progress of blocked threads -----

  lemma {:induction false} ExtentSurvives(states: seq<State>, actions: seq<Action>, i: nat, j: nat)
    requires Run(states, actions) && i <= j <= |actions|
    requires states[i].worker.Resting? && states[i].ring.extEnd > 0
    requires forall k :: i <= k < j ==> !actions[k].Commit?
    ensures states[j].ring.extEnd > 0
    ensures states[j].worker.Writing? ==> states[j].worker.snap.extEnd > 0
  {
    hide Inv, Enabled, Next, Init, Modest;
    if i < j {
      ExtentSurvives(states, actions, i, j - 1);
      RunKeeps(states, actions, j - 1);
      RunKeeps(states, actions, j);
      NoFault(states[j]);
      StepExtent(states[j - 1], actions[j - 1]);
    }
  }

  lemma StepExtent(s: State, a: Action)
    requires Inv(s) && Enabled(s, a) && !a.Commit? && s.ring.extEnd > 0 && !Next(s, a).fault
    ensures Next(s, a).ring.extEnd > 0
    ensures Next(s, a).worker.Writing? ==> if a.Begin? then Next(s, a).worker.snap.extEnd > 0
      else s.worker.Writing? && Next(s, a).worker.snap == s.worker.snap
  {
    hide Inv, Frame, Next, Ring.Shape;
    if a.Lock? {
      LockRing(s, a.t);
      if s.ring.HasRoom() {
        AppendKeeps(s.ring, Frame(s.segment, s.Pc(a.t).line));
      }
    } else {
      OtherRing(s, a);
    }
  }

  /** Of any two consecutive commits at least one leaves room for a full line, whatever the printing
      threads did in between. */
  lemma RoomEverySecondCommit(states: seq<State>, actions: seq<Action>, i: nat, j: nat)
    requires Run(states, actions) && i < j < |actions| && actions[i].Commit? && actions[j].Commit?
    requires forall k :: i < k < j ==> !actions[k].Commit?
    ensures states[i + 1].ring.HasRoom() || states[j + 1].ring.HasRoom()
  {
    hide Inv, Next, Init, Modest, Enabled, Ring.Shape;
    CommitClearsOwnExtent(states, actions, i);
    CommitClearsOwnExtent(states, actions, j);
    if states[i + 1].ring.extEnd != 0 {
      assert states[i + 1].ring.extEnd > 0 by { RunKeeps(states, actions, i + 1); ExtentSign(states[i + 1]); }
      ExtentSurvives(states, actions, i + 1, j);
    }
  }

  lemma ExtentSign(s: State)
    requires Inv(s)
    ensures s.ring.extEnd >= 0
  {
    hide Flat, Frame;
  }

  /** The append loop gets through to the copy only when the ring has room right now, although its
      `maxlen` may be left over from before a wait. */
  lemma AcceptedWithRoom(states: seq<State>, actions: seq<Action>, i: nat)
    requires Run(states, actions) && i < |actions| && actions[i].Lock?
    ensures Accepts(states[i], actions[i]) <==> states[i].ring.HasRoom()
    ensures states[i].Pc(actions[i].t).maxlen < MAX_LINE
  {
    hide RingInv, FlightInv, OutInv, CountInv, Init, Next, Modest;
    var s := states[i];
    RunKeeps(states, actions, i);
    ShapeOf(s.segment, s.ring, s.upper, s.lower);
    RoomByShape(s.ring, s.Pc(actions[i].t).maxlen);
  }

  // ----- Drop accounting -----

  /** A step at which a call of the print function returns. */
  predicate Returns(s: State, a: Action)
    requires Enabled(s, a)
  {
    Producing(a) && Next(s, a).Pc(a.t).Idle?
  }

  ghost function ReturnedIn(states: seq<State>, actions: seq<Action>, i: nat): nat
    requires Run(states, actions) && i <= |actions|
  {
    if i == 0 then 0
    else ReturnedIn(states, actions, i - 1) + if Returns(states[i - 1], actions[i - 1]) then 1 else 0
  }

  /** A step at which a call fails because nothing could be formatted. */
  predicate Unformatted(a: Action) { a.Print? && a.f.ret <= 0 }

  ghost function UnformattedIn(actions: seq<Action>, i: nat): nat
    requires i <= |actions|
  {
    if i == 0 then 0 else UnformattedIn(actions, i - 1) + if Unformatted(actions[i - 1]) then 1 else 0
  }

  lemma StepCounts(s: State, a: Action)
    requires Enabled(s, a) && !Next(s, a).fault
    ensures Next(s, a).completed == s.completed + if Returns(s, a) then 1 else 0
    ensures Next(s, a).malformed == s.malformed + if Unformatted(a) then 1 else 0
  {
    hide Decode, Frame;
  }

  lemma {:induction false} CountsAreHistory(states: seq<State>, actions: seq<Action>, i: nat)
    requires Run(states, actions) && i <= |actions|
    ensures states[i].completed == ReturnedIn(states, actions, i)
    ensures states[i].malformed == UnformattedIn(actions, i)
  {
    hide Inv, Enabled, Next, Modest, Returns, Unformatted;
    if i > 0 {
      CountsAreHistory(states, actions, i - 1);
      RunKeeps(states, actions, i);
      NoFault(states[i]);
      StepCounts(states[i - 1], actions[i - 1]);
    }
  }

  /** Every call that returned either had its line accepted, had nothing to print, or was refused; and
      every refusal, early or under the second lock, is announced already, in the worker's hand, or
      still in the log's counter. A blocking log never refuses. */
  lemma DropAccounting(states: seq<State>, actions: seq<Action>, i: nat)
    requires Run(states, actions) && i <= |actions|
    ensures ReturnedIn(states, actions, i) == |AcceptedIn(states, actions, i)| + UnformattedIn(actions, i)
      + ReportedIn(states[i].out) + InHandDrops(states[i].worker) + states[i].dropped
    ensures states[0].block ==>
      states[i].dropped == 0 && ReportedIn(states[i].out) == 0 && InHandDrops(states[i].worker) == 0
  {
    hide RingInv, FlightInv, OutInv, ProducersInv, Init, Enabled, Next, Modest, ReturnedIn, UnformattedIn, AcceptedIn;
    RunKeeps(states, actions, i);
    CountsAreHistory(states, actions, i);
    AcceptedIsHistory(states, actions, i);
  }

  /** A line is refused exactly when the log does not block and has no room for a full line, at the
      early check and under the second lock alike. */
  lemma RefusesExactly(states: seq<State>, actions: seq<Action>, i: nat)
    requires Run(states, actions) && i < |actions| && (actions[i].Enter? || actions[i].Lock?)
    ensures states[i + 1].dropped > states[i].dropped <==> !states[i].block && !states[i].ring.HasRoom()
    ensures states[i + 1].dropped > states[i].dropped ==> states[i + 1].ring == states[i].ring && Returns(states[i], actions[i])
  {
    hide RingInv, FlightInv, OutInv, CountInv, Init, Modest, Frame;
    var s := states[i];
    RunKeeps(states, actions, i);
    if actions[i].Lock? {
      ShapeOf(s.segment, s.ring, s.upper, s.lower);
      RoomByShape(s.ring, s.Pc(actions[i].t).maxlen);
    }
  }

  /** No thread ever waits on a log that does not block. */
  lemma {:induction false} NonBlockingNeverWaits(states: seq<State>, actions: seq<Action>, i: nat, t: nat)
    requires Run(states, actions) && i <= |actions| && !states[0].block
    ensures !states[i].Pc(t).Waiting?
  {
    hide Inv, Modest, Decode, Frame;
    if i > 0 {
      NonBlockingNeverWaits(states, actions, i - 1, t);
      RunKeeps(states, actions, i - 1);
      StepWaits(states[i - 1], actions[i - 1], t);
    }
  }

  lemma StepWaits(s: State, a: Action, t: nat)
    requires Enabled(s, a) && !s.block && !s.Pc(t).Waiting?
    ensures !Next(s, a).Pc(t).Waiting?
  {
    hide Decode, Frame;
  }
}
