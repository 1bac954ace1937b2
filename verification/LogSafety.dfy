/** What every reachable state of one log keeps. */
module LogSafety {
  import opened Segments
  import opened Ring
  import opened LogSystem

  /** A line whose record is shorter than the line limit. */
  predicate Short(segment: bool, l: Line) { 0 < |l| && |Frame(segment, l)| < MAX_LINE }

  /** Both halves of the unread bytes are whole lines, none across the wrap. */
  ghost predicate RingInv(segment: bool, r: Ring, upper: seq<Line>, lower: seq<Line>)
  {
    && r.Shape()
    && r.Upper() == Flat(segment, upper)
    && r.Lower() == Flat(segment, lower)
    && (r.extEnd == 0 ==> lower == [])
    && (forall l :: l in upper || l in lower ==> Short(segment, l))
  }

  /** Between snapshot and commit the snapshot still describes whole lines at the old end of the log. */
  ghost predicate FlightInv(segment: bool, r: Ring, upper: seq<Line>, lower: seq<Line>, w: Worker)
  {
    w.Writing? ==>
      && r.Shape()
      && w.snap.Total() > 0
      && 0 <= w.snap.end <= |r.buff| - MAX_LINE
      && if w.snap.extEnd == 0 then
           && w.snap.extLen == 0
           && w.taken <= |upper|
           && w.snap.end == r.start + w.snap.len
           && w.snap.len == |Flat(segment, upper[..w.taken])|
           && w.snap.len <= |r.Upper()|
         else
           && 0 < r.extEnd == w.snap.extEnd
           && w.snap.len == r.extEnd - r.start
           && |upper| <= w.taken <= |upper| + |lower|
           && w.snap.extLen == w.snap.end == |Flat(segment, lower[..w.taken - |upper|])|
           && w.snap.end <= r.end
  }

  /** Where the worker stands in its snapshot, and what it has put out so far. */
  ghost predicate OutInv(segment: bool, done: seq<Line>, held: seq<Line>, w: Worker, out: seq<Event>)
  {
    match w
    case Resting =>
      if segment then TextsOf(out) == done else TextOf(out) == Flat(false, done)
    case Writing(snap, taken, pos, emitted, _, _) =>
      && 0 <= pos <= snap.Total()
      && taken <= |held|
      && if segment then
           && emitted <= taken
           && pos == |Flat(true, held[..emitted])|
           && TextsOf(out) == done + held[..emitted]
         else
           && pos <= |Flat(false, held)|
           && TextOf(out) == Flat(false, done) + Flat(false, held)[..pos]
  }

  ghost predicate ProducersInv(segment: bool, producers: map<nat, Producer>)
  {
    forall t :: t in producers ==>
      var p := producers[t];
      && (p.Ready? || p.Waiting? ==> Short(segment, p.line) && p.maxlen < MAX_LINE)
  }

  function InHandDrops(w: Worker): nat
  {
    if w.Writing? && !w.reported then w.drops else 0
  }

  ghost predicate CountInv(s: State)
  {
    && s.completed == |s.Accepted()| + s.malformed + ReportedIn(s.out) + InHandDrops(s.worker) + s.dropped
    && (s.block ==> s.dropped == 0 && ReportedIn(s.out) == 0 && (s.worker.Writing? ==> s.worker.drops == 0))
    && (s.worker.Writing? && s.worker.drops == 0 ==> !s.worker.reported)
  }

  ghost predicate Inv(s: State)
  {
    && !s.fault
    && RingInv(s.segment, s.ring, s.upper, s.lower)
    && FlightInv(s.segment, s.ring, s.upper, s.lower, s.worker)
    && OutInv(s.segment, s.done, s.Held(), s.worker, s.out)
    && ProducersInv(s.segment, s.producers)
    && CountInv(s)
  }

  lemma InitInv(s: State)
    requires Init(s)
    ensures Inv(s)
  {
  }

  // ----- Producer steps -----

  lemma EnterKeeps(s: State, t: nat)
    requires Inv(s) && Enabled(s, Enter(t))
    ensures Inv(Next(s, Enter(t)))
  {
    hide RingInv, FlightInv, OutInv;
    assert ProducersInv(s.segment, s.With(t, Formatting).producers);
  }

  lemma WakeKeeps(s: State, t: nat)
    requires Inv(s) && Enabled(s, Wake(t))
    ensures Inv(Next(s, Wake(t)))
  {
    hide RingInv, FlightInv, OutInv;
  }

  lemma PrintKeeps(s: State, t: nat, f: Formatted)
    requires Inv(s) && Enabled(s, Print(t, f)) && Modest(s.segment, Print(t, f))
    ensures Inv(Next(s, Print(t, f)))
  {
    hide RingInv, FlightInv, OutInv;
  }

  lemma AppendRing(segment: bool, r: Ring, upper: seq<Line>, lower: seq<Line>, line: Line)
    requires RingInv(segment, r, upper, lower) && r.HasRoom() && Short(segment, line)
    ensures r.Fits(|Frame(segment, line)|)
    ensures r.extEnd == 0 ==> RingInv(segment, r.Append(Frame(segment, line)), upper + [line], lower)
    ensures r.extEnd > 0 ==> RingInv(segment, r.Append(Frame(segment, line)), upper, lower + [line])
  {
    AppendKeeps(r, Frame(segment, line));
    FlatSnoc(segment, upper, line);
    FlatSnoc(segment, lower, line);
  }

  lemma AppendFlight(segment: bool, r: Ring, upper: seq<Line>, lower: seq<Line>, w: Worker, line: Line)
    requires RingInv(segment, r, upper, lower) && r.HasRoom() && Short(segment, line)
    requires FlightInv(segment, r, upper, lower, w)
    ensures r.Fits(|Frame(segment, line)|)
    ensures r.extEnd == 0 ==> FlightInv(segment, r.Append(Frame(segment, line)), upper + [line], lower, w)
    ensures r.extEnd > 0 ==> FlightInv(segment, r.Append(Frame(segment, line)), upper, lower + [line], w)
  {
    AppendKeeps(r, Frame(segment, line));
    if w.Writing? {
      if w.snap.extEnd == 0 {
        assert (upper + [line])[..w.taken] == upper[..w.taken];
      } else {
        assert (lower + [line])[..w.taken - |upper|] == lower[..w.taken - |upper|];
      }
    }
  }

  lemma AppendOut(segment: bool, done: seq<Line>, held: seq<Line>, w: Worker, out: seq<Event>, line: Line)
    requires OutInv(segment, done, held, w, out)
    ensures OutInv(segment, done, held + [line], w, out)
  {
    FlatSnoc(false, held, line);
    if w.Writing? {
      if segment {
        assert (held + [line])[..w.emitted] == held[..w.emitted];
      } else {
        assert Flat(false, held + [line])[..w.pos] == Flat(false, held)[..w.pos];
      }
    }
  }

  lemma NoLower(segment: bool, r: Ring, upper: seq<Line>, lower: seq<Line>)
    requires RingInv(segment, r, upper, lower)
    ensures r.extEnd == 0 ==> lower == []
    ensures r.extEnd >= 0
  {
  }

  lemma AppendStepKeeps(s: State, line: Line)
    requires !s.fault && s.ring.HasRoom() && Short(s.segment, line)
    requires RingInv(s.segment, s.ring, s.upper, s.lower)
    requires FlightInv(s.segment, s.ring, s.upper, s.lower, s.worker)
    requires OutInv(s.segment, s.done, s.Held(), s.worker, s.out)
    requires ProducersInv(s.segment, s.producers)
    requires CountInv(s)
    ensures Inv(AppendStep(s, line))
    ensures AppendStep(s, line).Accepted() == s.Accepted() + [line]
  {
    hide RingInv, FlightInv, OutInv, Flat, Frame;
    NoLower(s.segment, s.ring, s.upper, s.lower);
    AppendRing(s.segment, s.ring, s.upper, s.lower, line);
    AppendFlight(s.segment, s.ring, s.upper, s.lower, s.worker, line);
    AppendOut(s.segment, s.done, s.Held(), s.worker, s.out, line);
    var q := AppendStep(s, line);
    assert q.Held() == s.Held() + [line];
    assert q.Accepted() == s.Accepted() + [line];
  }

  lemma LockKeeps(s: State, t: nat)
    requires Inv(s) && Enabled(s, Lock(t))
    ensures Inv(Next(s, Lock(t)))
  {
    hide FlightInv, OutInv, AppendStep, Flat, Frame;
    var p := s.Pc(t);
    RoomByShape(s.ring, p.maxlen);
    if s.ring.HasRoom() {
      AppendStepKeeps(s.With(t, Idle), p.line);
    }
  }

  lemma ProducerKeeps(s: State, a: Action)
    requires Inv(s) && Producing(a) && Enabled(s, a) && Modest(s.segment, a)
    ensures Inv(Next(s, a))
  {
    hide Inv, Next;
    match a
    case Enter(t) => EnterKeeps(s, t);
    case Print(t, f) => PrintKeeps(s, t, f);
    case Lock(t) => LockKeeps(s, t);
    case Wake(t) => WakeKeeps(s, t);
  }

  // ----- Worker steps -----

  lemma BeginFlight(segment: bool, r: Ring, upper: seq<Line>, lower: seq<Line>, w: Worker)
    requires RingInv(segment, r, upper, lower) && r.HasData()
    requires w.Writing? && w.snap == r.Take() && w.taken == |upper + lower|
    ensures FlightInv(segment, r, upper, lower, w)
  {
    hide Flat, Frame;
    assert upper[..|upper|] == upper && lower[..|lower|] == lower;
  }

  lemma BeginOut(segment: bool, done: seq<Line>, held: seq<Line>, out: seq<Event>, w: Worker)
    requires OutInv(segment, done, held, Resting, out)
    requires w.Writing? && w.taken <= |held| && w.pos == 0 && w.emitted == 0 && w.snap.Total() >= 0
    ensures OutInv(segment, done, held, w, out)
  {
    hide TextOf, TextsOf, Frame;
    assert held[..0] == [];
    assert done + [] == done;
    assert Flat(false, done) + Flat(false, held)[..0] == Flat(false, done);
  }

  lemma BeginKeeps(s: State)
    requires Inv(s) && Enabled(s, Begin)
    ensures Inv(Next(s, Begin))
  {
    hide RingInv, FlightInv, OutInv, ProducersInv, ReportedIn;
    var w := Next(s, Begin).worker;
    BeginFlight(s.segment, s.ring, s.upper, s.lower, w);
    assert w.snap.Total() >= 0 by { TakeCoversUnread(s.ring) by { ShapeOf(s.segment, s.ring, s.upper, s.lower); } }
    BeginOut(s.segment, s.done, s.Held(), s.out, w);
  }

  lemma ShapeOf(segment: bool, r: Ring, upper: seq<Line>, lower: seq<Line>)
    requires RingInv(segment, r, upper, lower)
    ensures r.Shape()
  {
  }

  /** The bytes of the snapshot, read from the shared buffer now, are the bytes of the lines taken. */
  lemma SlicesAreLines(segment: bool, r: Ring, upper: seq<Line>, lower: seq<Line>, w: Worker)
    requires RingInv(segment, r, upper, lower) && FlightInv(segment, r, upper, lower, w) && w.Writing?
    ensures r.InBounds(w.snap)
    ensures w.taken <= |upper + lower|
    ensures r.Slices(w.snap) == Flat(segment, (upper + lower)[..w.taken])
  {
    if w.snap.extEnd == 0 {
      SlicesLinear(segment, r, upper, lower, w.snap, w.taken);
    } else {
      SlicesWrapped(segment, r, upper, lower, w.snap, w.taken - |upper|);
    }
  }

  lemma SlicesLinear(segment: bool, r: Ring, upper: seq<Line>, lower: seq<Line>, snap: Snapshot, n: nat)
    requires r.Shape() && r.Upper() == Flat(segment, upper) && n <= |upper|
    requires snap.extLen == 0 && snap.len == |Flat(segment, upper[..n])|
    ensures r.InBounds(snap)
    ensures r.Slices(snap) == Flat(segment, (upper + lower)[..n])
  {
    hide Flat;
    LinearSlice(segment, r, upper, snap.len, n);
    assert (upper + lower)[..n] == upper[..n];
    assert r.buff[..0] == [];
  }

  lemma SlicesWrapped(segment: bool, r: Ring, upper: seq<Line>, lower: seq<Line>, snap: Snapshot, n: nat)
    requires r.Shape() && r.extEnd > 0 && n <= |lower|
    requires r.Upper() == Flat(segment, upper) && r.Lower() == Flat(segment, lower)
    requires snap.len == r.extEnd - r.start && snap.extLen == |Flat(segment, lower[..n])|
    ensures r.InBounds(snap)
    ensures r.Slices(snap) == Flat(segment, (upper + lower)[..|upper| + n])
  {
    hide Flat;
    LowerSlice(segment, r, lower, n);
    PrefixOfConcat(upper, lower, n);
    FlatConcat(segment, upper, lower[..n]);
  }

  lemma PrefixOfConcat<T>(a: seq<T>, b: seq<T>, n: nat)
    requires n <= |b|
    ensures (a + b)[..|a| + n] == a + b[..n]
  {
  }

  lemma LinearSlice(segment: bool, r: Ring, upper: seq<Line>, len: nat, n: nat)
    requires r.Shape() && r.Upper() == Flat(segment, upper)
    requires n <= |upper| && len == |Flat(segment, upper[..n])|
    ensures r.start + len <= |r.buff|
    ensures r.buff[r.start..r.start + len] == Flat(segment, upper[..n])
  {
    hide Flat;
    FlatPrefix(segment, upper, n);
    SubSlice(r.buff, r.start, |r.Upper()|, 0, len);
  }

  lemma LowerSlice(segment: bool, r: Ring, lower: seq<Line>, n: nat)
    requires r.Shape() && r.extEnd > 0 && r.Lower() == Flat(segment, lower) && n <= |lower|
    ensures |Flat(segment, lower[..n])| <= |r.buff|
    ensures r.buff[..|Flat(segment, lower[..n])|] == Flat(segment, lower[..n])
  {
    hide Flat;
    FlatPrefix(segment, lower, n);
    var len := |Flat(segment, lower[..n])|;
    assert r.buff[..len] == r.Lower()[..len];
  }

  /** Reading a stretch of one slice at its address reads that stretch of the snapshot's bytes. */
  lemma ReadStretch(r: Ring, snap: Snapshot, pos: nat, p: nat)
    requires r.InBounds(snap) && pos <= p <= snap.Total()
    requires p <= snap.len || pos >= snap.len
    ensures pos < snap.len ==> r.buff[r.start + pos..r.start + p] == r.Slices(snap)[pos..p]
    ensures pos >= snap.len ==> r.buff[pos - snap.len..p - snap.len] == r.Slices(snap)[pos..p]
  {
    var up, low := r.buff[r.start..r.start + snap.len], r.buff[..snap.extLen];
    assert r.Slices(snap) == up + low;
    if pos < snap.len {
      SubSlice(r.buff, r.start, snap.len, pos, p);
      assert (up + low)[pos..p] == up[pos..p];
    } else {
      assert r.buff[0..snap.extLen] == low;
      SubSlice(r.buff, 0, snap.extLen, pos - snap.len, p - snap.len);
      assert (up + low)[pos..p] == low[pos - snap.len..p - snap.len];
    }
  }

  lemma FlightMoves(segment: bool, r: Ring, upper: seq<Line>, lower: seq<Line>, w: Worker, v: Worker)
    requires FlightInv(segment, r, upper, lower, w)
    requires w.Writing? && v.Writing? && v.snap == w.snap && v.taken == w.taken
    ensures FlightInv(segment, r, upper, lower, v)
  {
  }

  lemma PlainOut(done: seq<Line>, held: seq<Line>, w: Worker, out: seq<Event>, p: int)
    requires OutInv(false, done, held, w, out) && w.Writing?
    requires w.pos <= p <= w.snap.Total() && p <= |Flat(false, held)|
    ensures OutInv(false, done, held, w.(pos := p), out + [Text(Flat(false, held)[w.pos..p])])
  {
    hide Flat, TextOf, TextsOf;
    var f := Flat(false, held);
    OutSnoc(out, Text(f[w.pos..p]));
    assert f[..p] == f[..w.pos] + f[w.pos..p];
  }

  /** The next stretch of a plain log, read where the worker stands, is that stretch of the held bytes. */
  lemma NextStretch(s: State, n: nat)
    requires Inv(s) && Enabled(s, Emit(n)) && !s.segment
    ensures 0 <= Address(s) && s.worker.pos < SliceEnd(s.worker)
    ensures var p := Min(s.worker.pos + n, SliceEnd(s.worker));
      && 0 <= s.worker.pos < p <= s.worker.snap.Total() && p <= |Flat(false, s.Held())|
      && Address(s) + (p - s.worker.pos) <= |s.ring.buff|
      && s.ring.buff[Address(s)..Address(s) + (p - s.worker.pos)] == Flat(false, s.Held())[s.worker.pos..p]
  {
    hide RingInv, FlightInv, OutInv, ProducersInv, CountInv, Flat;
    var w, held := s.worker, s.Held();
    SlicesAreLines(false, s.ring, s.upper, s.lower, w);
    FlatPrefix(false, held, w.taken);
    PosRange(s.segment, s.done, held, w, s.out);
    var p := Min(w.pos + n, SliceEnd(w));
    ReadStretch(s.ring, w.snap, w.pos, p);
    assert s.ring.Slices(w.snap)[w.pos..p] == Flat(false, held)[w.pos..p];
  }

  lemma EmitPlainKeeps(s: State, n: nat)
    requires Inv(s) && Enabled(s, Emit(n)) && !s.segment
    ensures Inv(Next(s, Emit(n)))
  {
    hide RingInv, FlightInv, OutInv, ProducersInv, Flat, ReportedIn, Address, SliceEnd;
    var w, held := s.worker, s.Held();
    NextStretch(s, n);
    var p := Min(w.pos + n, SliceEnd(w));
    OutSnoc(s.out, Text(Flat(false, held)[w.pos..p]));
    PlainOut(s.done, held, w, s.out, p);
    FlightMoves(false, s.ring, s.upper, s.lower, w, w.(pos := p));
  }

  lemma PosRange(segment: bool, done: seq<Line>, held: seq<Line>, w: Worker, out: seq<Event>)
    requires OutInv(segment, done, held, w, out) && w.Writing?
    ensures 0 <= w.pos <= w.snap.Total() && w.taken <= |held|
    ensures segment ==> w.emitted <= w.taken && w.pos == |Flat(true, held[..w.emitted])|
  {
  }

  /** A proper prefix of the lines takes fewer bytes. */
  lemma PrefixShorter(segment: bool, ls: seq<Line>, n: nat)
    requires n < |ls|
    requires Short(segment, ls[n])
    ensures Flat(segment, ls[..n + 1]) == Flat(segment, ls[..n]) + Frame(segment, ls[n])
    ensures |Flat(segment, ls[..n])| < |Flat(segment, ls[..n + 1])| <= |Flat(segment, ls)|
  {
    hide Flat, Frame;
    assert ls[..n + 1] == ls[..n] + [ls[n]];
    FlatSnoc(segment, ls[..n], ls[n]);
    FlatPrefix(segment, ls, n + 1);
  }

  /** The next record lies whole inside the slice the worker is in, and parses to the next line. */
  lemma NextRecord(s: State)
    requires Inv(s) && s.segment && s.worker.Writing? && s.worker.pos < s.worker.snap.Total()
    ensures 0 <= Address(s) && s.worker.emitted < s.worker.taken <= |s.Held()|
    ensures Decode(s.ring.buff, Address(s)) == Record(s.Held()[s.worker.emitted], |Frame(true, s.Held()[s.worker.emitted])|)
    ensures s.worker.pos + |Frame(true, s.Held()[s.worker.emitted])| <= SliceEnd(s.worker)
    ensures |Flat(true, s.Held()[..s.worker.emitted + 1])| == s.worker.pos + |Frame(true, s.Held()[s.worker.emitted])|
  {
    hide RingInv, FlightInv, OutInv, ProducersInv, CountInv, Flat, Decode, Frame, Ring.Slices, Ring.Shape;
    var w, held := s.worker, s.Held();
    SlicesAreLines(true, s.ring, s.upper, s.lower, w);
    PosRange(true, s.done, held, w, s.out);
    RecordPlace(true, s.ring, s.upper, s.lower, w, w.emitted);
    var line := held[w.emitted];
    HeldShort(true, s.ring, s.upper, s.lower, w.emitted);
    FrameInPrefix(held, w.emitted, w.taken);
    var p := w.pos + |Frame(true, line)|;
    ReadStretch(s.ring, w.snap, w.pos, p);
    DecodeFrame(s.ring.buff, Address(s), line) by { assert |line| + 1 < 0x1_0000; }
  }

  /** Line n of the first m lines takes its own frame out of their bytes. */
  lemma FrameInPrefix(ls: seq<Line>, n: nat, m: nat)
    requires n < m <= |ls| && Short(true, ls[n])
    ensures |Flat(true, ls[..n])| < |Flat(true, ls[..n + 1])| <= |Flat(true, ls[..m])|
    ensures |Flat(true, ls[..n + 1])| == |Flat(true, ls[..n])| + |Frame(true, ls[n])|
    ensures Flat(true, ls[..m])[|Flat(true, ls[..n])|..|Flat(true, ls[..n + 1])|] == Frame(true, ls[n])
  {
    hide Flat, Frame;
    var front := ls[..m];
    assert front[..n] == ls[..n] && front[..n + 1] == ls[..n + 1] && front[n] == ls[n];
    PrefixShorter(true, front, n);
    FlatPrefix(true, front, n + 1);
  }

  lemma HeldShort(segment: bool, r: Ring, upper: seq<Line>, lower: seq<Line>, n: nat)
    requires RingInv(segment, r, upper, lower) && n < |upper + lower|
    ensures Short(segment, (upper + lower)[n])
  {
  }

  /** Where record number n of the held lines starts and ends relative to the upper slice. */
  lemma RecordPlace(segment: bool, r: Ring, upper: seq<Line>, lower: seq<Line>, w: Worker, n: nat)
    requires RingInv(segment, r, upper, lower) && FlightInv(segment, r, upper, lower, w) && w.Writing?
    requires w.taken <= |upper + lower| && n <= w.taken
    requires |Flat(segment, (upper + lower)[..n])| < w.snap.Total()
    ensures n < w.taken
    ensures |Flat(segment, (upper + lower)[..n + 1])| <= w.snap.len || |Flat(segment, (upper + lower)[..n])| >= w.snap.len
    ensures |Flat(segment, (upper + lower)[..n + 1])| <= w.snap.Total()
  {
    hide Flat, Frame;
    var held := upper + lower;
    SlicesAreLines(segment, r, upper, lower, w);
    if n < w.taken {
      HeldShort(segment, r, upper, lower, n);
      assert held[..w.taken][..n + 1] == held[..n + 1];
      FlatPrefix(segment, held[..w.taken], n + 1);
      if w.snap.extEnd > 0 {
        if n < |upper| {
          assert held[..n + 1] == upper[..n + 1];
          FlatPrefix(segment, upper, n + 1);
        } else {
          assert held[..n][..|upper|] == upper;
          FlatPrefix(segment, held[..n], |upper|);
        }
      }
    }
  }

  lemma RecordOut(done: seq<Line>, held: seq<Line>, w: Worker, out: seq<Event>)
    requires OutInv(true, done, held, w, out) && w.Writing? && w.emitted < w.taken
    requires |Flat(true, held[..w.emitted + 1])| <= w.snap.Total()
    ensures OutInv(true, done, held, w.(pos := |Flat(true, held[..w.emitted + 1])|, emitted := w.emitted + 1),
      out + [Text(held[w.emitted])])
  {
    hide Flat, TextOf, TextsOf;
    OutSnoc(out, Text(held[w.emitted]));
    assert held[..w.emitted + 1] == held[..w.emitted] + [held[w.emitted]];
  }

  lemma EmitRecordKeeps(s: State, n: nat)
    requires Inv(s) && Enabled(s, Emit(n)) && s.segment
    ensures Inv(Next(s, Emit(n)))
  {
    hide RingInv, FlightInv, OutInv, ProducersInv, Flat, Frame, Decode, ReportedIn, Address, SliceEnd;
    var w, held := s.worker, s.Held();
    NextRecord(s);
    OutSnoc(s.out, Text(held[w.emitted]));
    assert SliceEnd(w) <= w.snap.Total() by { SliceEndBound(s.ring, s.upper, s.lower, w); }
    RecordOut(s.done, held, w, s.out);
    FlightMoves(true, s.ring, s.upper, s.lower, w, Next(s, Emit(n)).worker);
  }

  lemma SliceEndBound(r: Ring, upper: seq<Line>, lower: seq<Line>, w: Worker)
    requires FlightInv(true, r, upper, lower, w) && w.Writing?
    ensures SliceEnd(w) <= w.snap.Total()
  {
    hide Flat;
  }

  lemma NoticeKeeps(s: State)
    requires Inv(s) && Enabled(s, Notice)
    ensures Inv(Next(s, Notice))
  {
    hide RingInv, FlightInv, OutInv, ProducersInv, ReportedIn;
    OutSnoc(s.out, Dropped(s.worker.drops));
    FlightMoves(s.segment, s.ring, s.upper, s.lower, s.worker, s.worker.(reported := true));
    assert OutInv(s.segment, s.done, s.Held(), s.worker.(reported := true), s.out + [Dropped(s.worker.drops)]) by {
      NoticeOut(s.segment, s.done, s.Held(), s.worker, s.out);
    }
  }

  lemma NoticeOut(segment: bool, done: seq<Line>, held: seq<Line>, w: Worker, out: seq<Event>)
    requires OutInv(segment, done, held, w, out) && w.Writing?
    ensures OutInv(segment, done, held, w.(reported := true), out + [Dropped(w.drops)])
  {
    hide Flat, TextOf, TextsOf;
    OutSnoc(out, Dropped(w.drops));
  }

  // ----- The commit -----

  lemma CommitLinear(segment: bool, r: Ring, upper: seq<Line>, lower: seq<Line>, w: Worker)
    requires RingInv(segment, r, upper, lower) && FlightInv(segment, r, upper, lower, w)
    requires w.Writing? && w.snap.extEnd == 0
    ensures w.taken <= |upper|
    ensures RingInv(segment, r.Release(w.snap), upper[w.taken..], lower)
  {
    hide Flat, Frame;
    FlatPrefix(segment, upper, w.taken);
    var n := w.snap.len;
    assert r.Release(w.snap).Shape();
    SubSlice(r.buff, r.start, |r.Upper()|, n, |r.Upper()|);
    assert r.Upper()[n..] == Flat(segment, upper[w.taken..]);
  }

  lemma CommitWrapped(segment: bool, r: Ring, upper: seq<Line>, lower: seq<Line>, w: Worker)
    requires RingInv(segment, r, upper, lower) && FlightInv(segment, r, upper, lower, w)
    requires w.Writing? && w.snap.extEnd != 0
    ensures |upper| <= w.taken <= |upper| + |lower|
    ensures w.snap.extEnd > 0
    ensures RingInv(segment, r.Release(w.snap), lower[w.taken - |upper|..], [])
  {
    hide Flat, Frame;
    var k := w.taken - |upper|;
    FlatPrefix(segment, lower, k);
    assert r.Release(w.snap).Shape();
    assert r.buff[w.snap.end..r.end] == r.Lower()[w.snap.end..];
    assert Flat(segment, []) == [] by { FlatNil(segment); }
  }

  lemma FlatNil(segment: bool)
    ensures Flat(segment, []) == []
  {
  }

  lemma CommitOut(segment: bool, r: Ring, upper: seq<Line>, lower: seq<Line>, done: seq<Line>, w: Worker, out: seq<Event>)
    requires RingInv(segment, r, upper, lower) && FlightInv(segment, r, upper, lower, w)
    requires OutInv(segment, done, upper + lower, w, out)
    requires w.Writing? && w.pos >= w.snap.Total()
    ensures OutInv(segment, done + (upper + lower)[..w.taken], [], Resting, out)
    ensures segment ==> w.emitted == w.taken
  {
    hide RingInv, FlightInv, Flat, Frame, TextOf, TextsOf;
    var held := upper + lower;
    SlicesAreLines(segment, r, upper, lower, w);
    PosRange(segment, done, held, w, out);
    if segment {
      if w.emitted < w.taken {
        assert held[..w.taken][..w.emitted] == held[..w.emitted];
        HeldShort(segment, r, upper, lower, w.emitted);
        PrefixShorter(true, held[..w.taken], w.emitted);
      }
    } else {
      FlatPrefix(false, held, w.taken);
      FlatConcat(false, done, held[..w.taken]);
    }
  }

  lemma SplitSeq<T>(a: seq<T>, n: nat)
    requires n <= |a|
    ensures a[..n] + a[n..] == a
  {
  }

  /** The lines taken move from the held ones to the ones done with. */
  ghost predicate Takes(s: State, q: State, w: Worker)
    requires w.Writing?
  {
    && w.taken <= |s.Held()|
    && q.done == s.done + s.Held()[..w.taken]
    && q.Held() == s.Held()[w.taken..]
    && (w.snap.extEnd == 0 ==> w.taken <= |s.upper| && q.upper == s.upper[w.taken..] && q.lower == s.lower)
    && (w.snap.extEnd != 0 ==> w.taken >= |s.upper| && q.upper == s.lower[w.taken - |s.upper|..] && q.lower == [])
  }

  /** A commit drops what was delivered from the held lines and nothing else. */
  lemma CommitLines(s: State)
    requires Inv(s) && Enabled(s, Commit)
    ensures Takes(s, Next(s, Commit), s.worker)
  {
    hide RingInv, FlightInv, OutInv, ProducersInv, CountInv, Flat, Frame;
    var w := s.worker;
    if w.snap.extEnd == 0 {
      CommitLinear(s.segment, s.ring, s.upper, s.lower, w);
    } else {
      CommitWrapped(s.segment, s.ring, s.upper, s.lower, w);
    }
  }

  lemma CommitAccepted(s: State)
    requires Inv(s) && Enabled(s, Commit)
    ensures Next(s, Commit).Accepted() == s.Accepted()
  {
    hide Inv, Next, State.Held, State.Accepted;
    CommitLines(s);
    var q := Next(s, Commit);
    AcceptedParts(q);
    AcceptedParts(s);
    MoveOver(s.done, s.Held(), s.worker.taken);
  }

  lemma AcceptedParts(s: State)
    ensures s.Accepted() == s.done + s.Held()
  {
  }

  lemma MoveOver<T>(a: seq<T>, b: seq<T>, n: nat)
    requires n <= |b|
    ensures (a + b[..n]) + b[n..] == a + b
  {
    SplitSeq(b, n);
  }

  lemma CommitKeeps(s: State)
    requires Inv(s) && Enabled(s, Commit)
    ensures Inv(Next(s, Commit))
  {
    hide RingInv, FlightInv, OutInv, ProducersInv, ReportedIn;
    var w := s.worker;
    var q := Next(s, Commit);
    CommitLines(s);
    CommitAccepted(s);
    CommitOut(s.segment, s.ring, s.upper, s.lower, s.done, w, s.out);
    assert RingInv(q.segment, q.ring, q.upper, q.lower) by {
      if w.snap.extEnd == 0 {
        CommitLinear(s.segment, s.ring, s.upper, s.lower, w);
      } else {
        CommitWrapped(s.segment, s.ring, s.upper, s.lower, w);
      }
    }
    OutResting(s.segment, q.done, [], q.Held(), s.out);
    FlightResting(q.segment, q.ring, q.upper, q.lower);
  }

  lemma OutResting(segment: bool, done: seq<Line>, held: seq<Line>, held': seq<Line>, out: seq<Event>)
    requires OutInv(segment, done, held, Resting, out)
    ensures OutInv(segment, done, held', Resting, out)
  {
  }

  lemma FlightResting(segment: bool, r: Ring, upper: seq<Line>, lower: seq<Line>)
    ensures FlightInv(segment, r, upper, lower, Resting)
  {
  }

  /** Every step keeps the invariant. */
  lemma StepKeeps(s: State, a: Action)
    requires Inv(s) && Enabled(s, a) && Modest(s.segment, a)
    ensures Inv(Next(s, a))
  {
    hide Inv, Next, Enabled, Modest;
    match a
    case Begin => BeginKeeps(s);
    case Emit(n) => if s.segment { EmitRecordKeeps(s, n); } else { EmitPlainKeeps(s, n); }
    case Notice => NoticeKeeps(s);
    case Commit => CommitKeeps(s);
    case _ => ProducerKeeps(s, a);
  }

  /** Every state of every run satisfies the invariant; in particular no append ever leaves the buffer. */
  lemma {:induction false} RunKeeps(states: seq<State>, actions: seq<Action>, i: nat)
    requires Run(states, actions) && i < |states|
    ensures Inv(states[i])
    ensures states[i].segment == states[0].segment && states[i].block == states[0].block
  {
    hide Inv, Init, Enabled, Modest;
    if i == 0 {
      InitInv(states[0]);
    } else {
      RunKeeps(states, actions, i - 1);
      StepKeeps(states[i - 1], actions[i - 1]);
      StepMode(states[i - 1], actions[i - 1]);
    }
  }

  lemma StepMode(s: State, a: Action)
    requires Enabled(s, a)
    ensures Next(s, a).segment == s.segment && Next(s, a).block == s.block
    ensures |Next(s, a).ring.buff| == |s.ring.buff| || Next(s, a).fault
  {
    hide Decode, Frame;
  }
}
