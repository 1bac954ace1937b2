/** One log under any number of printing threads and the one worker thread, as a step system.
    A step is what a thread does between taking and releasing `tlog.lock`, or one piece of work it
    does without the lock. `done`, `upper`, `lower`, `completed` and `malformed` record history and
    steer nothing. */
module LogSystem {
  import opened Bytes
  import opened Segments
  import opened Ring

  /** What the print callback returned, and the line buffer it filled. */
  datatype Formatted = Formatted(ret: int, buff: seq<byte>)

  const DISCARD_TEXT := "[LOG TOO LONG, DISCARD]\n"

  function DiscardLine(): Line { seq(|DISCARD_TEXT|, i requires 0 <= i < |DISCARD_TEXT| => DISCARD_TEXT[i] as int % 0x100) }

  /** The line that goes into the log. */
  function LineOf(f: Formatted): (l: Line)
    requires f.ret > 0 && |f.buff| == MAX_LINE
    ensures 0 < |l| < MAX_LINE
  {
    if f.ret >= MAX_LINE then DiscardLine() else f.buff[..f.ret]
  }

  datatype Producer =
    | Idle
    | Formatting
    | Ready(line: Line, maxlen: int)
    | Waiting(line: Line, maxlen: int)

  datatype Worker =
    | Resting
    | Writing(snap: Snapshot, taken: nat, pos: int, emitted: nat, drops: nat, reported: bool)

  datatype Event = Text(bytes: seq<byte>) | Dropped(count: nat)

  datatype State = State(
    ring: Ring, segment: bool, block: bool, dropped: nat,
    producers: map<nat, Producer>, worker: Worker, out: seq<Event>, fault: bool,
    done: seq<Line>, upper: seq<Line>, lower: seq<Line>, completed: nat, malformed: nat)
  {
    function Pc(t: nat): Producer { if t in producers then producers[t] else Idle }

    /** The accepted lines whose bytes the log still holds, oldest first, and all accepted lines. */
    function Held(): seq<Line> { upper + lower }
    function Accepted(): seq<Line> { done + upper + lower }

    function With(t: nat, p: Producer): State { this.(producers := producers[t := p]) }
  }

  datatype Action =
    | Enter(t: nat)
    | Print(t: nat, f: Formatted)
    | Lock(t: nat)
    | Wake(t: nat)
    | Begin
    | Emit(n: nat)
    | Notice
    | Commit

  predicate Producing(a: Action) { a.Enter? || a.Print? || a.Lock? || a.Wake? }

  predicate Init(s: State)
  {
    && |s.ring.buff| >= MAX_LINE && s.ring == Empty(s.ring.buff)
    && s.dropped == 0 && s.producers == map[] && s.worker == Resting && s.out == [] && !s.fault
    && s.done == [] && s.upper == [] && s.lower == [] && s.completed == 0 && s.malformed == 0
  }

  predicate Enabled(s: State, a: Action)
  {
    && !s.fault
    && match a
       case Enter(t) => s.Pc(t).Idle?
       case Print(t, f) => s.Pc(t).Formatting? && |f.buff| == MAX_LINE
       case Lock(t) => s.Pc(t).Ready?
       case Wake(t) => s.Pc(t).Waiting?
       case Begin => s.worker.Resting? && s.ring.HasData()
       case Emit(n) => s.worker.Writing? && s.worker.pos < s.worker.snap.Total() && n > 0
       case Notice => s.worker.Writing? && s.worker.pos >= s.worker.snap.Total() && s.worker.drops > 0 && !s.worker.reported
       case Commit => s.worker.Writing? && s.worker.pos >= s.worker.snap.Total() && (s.worker.drops == 0 || s.worker.reported)
  }

  /** The early check of a non-blocking log: refuse before formatting when there is no room. */
  function EnterStep(s: State, t: nat): State
  {
    if !s.block && !s.ring.HasRoom() then s.(dropped := s.dropped + 1, completed := s.completed + 1)
    else s.With(t, Formatting)
  }

  function PrintStep(s: State, t: nat, f: Formatted): State
    requires |f.buff| == MAX_LINE
  {
    if f.ret <= 0 then s.With(t, Idle).(completed := s.completed + 1, malformed := s.malformed + 1)
    else s.With(t, Ready(LineOf(f), 0))
  }

  /** One turn of the append loop under the lock; `maxlen` survives from the previous turn. */
  function LockStep(s: State, t: nat, line: Line, maxlen: int): State
  {
    var m := s.ring.Room(maxlen);
    if m < MAX_LINE then
      if !s.block then s.With(t, Idle).(dropped := s.dropped + 1, completed := s.completed + 1)
      else s.With(t, Waiting(line, m))
    else AppendStep(s.With(t, Idle), line)
  }

  /** The copy into the buffer; writing past its end is recorded as a fault. */
  function AppendStep(s: State, line: Line): State
  {
    var f := Frame(s.segment, line);
    if !s.ring.Fits(|f|) then s.(fault := true)
    else
      s.(ring := s.ring.Append(f), completed := s.completed + 1,
         upper := if s.ring.extEnd == 0 then s.upper + [line] else s.upper,
         lower := if s.ring.extEnd == 0 then s.lower else s.lower + [line])
  }

  function BeginStep(s: State): State
  {
    s.(worker := Writing(s.ring.Take(), |s.Held()|, 0, 0, s.dropped, false), dropped := 0)
  }

  function Min(a: int, b: int): int { if a <= b then a else b }

  /** Where the slice that holds position `pos` lies, and where in the buffer that position is. */
  function SliceEnd(w: Worker): int
    requires w.Writing?
  {
    if w.pos < w.snap.len then w.snap.len else w.snap.Total()
  }

  function Address(s: State): int
    requires s.worker.Writing?
  {
    if s.worker.pos < s.worker.snap.len then s.ring.start + s.worker.pos else s.worker.pos - s.worker.snap.len
  }

  /** The output callback takes n more bytes of a plain log straight from the shared buffer. */
  function EmitPlain(s: State, n: nat): State
    requires s.worker.Writing?
  {
    var a := Address(s);
    var p := Min(s.worker.pos + n, SliceEnd(s.worker));
    var k := p - s.worker.pos;
    if !(0 <= a && 0 <= k && a + k <= |s.ring.buff|) then s.(fault := true)
    else s.(out := s.out + [Text(s.ring.buff[a..a + k])], worker := s.worker.(pos := p))
  }

  /** The parser reads one record of a segment log straight from the shared buffer; a position
      without the magic gives up the rest of the slice. */
  function EmitRecord(s: State): State
    requires s.worker.Writing?
  {
    var a := Address(s);
    if a < 0 then s.(fault := true)
    else
      match Decode(s.ring.buff, a)
      case OutOfRange => s.(fault := true)
      case NoMagic => s.(worker := s.worker.(pos := SliceEnd(s.worker)))
      case Record(text, size) =>
        s.(out := s.out + [Text(text)],
           worker := s.worker.(pos := Min(s.worker.pos + size, SliceEnd(s.worker)), emitted := s.worker.emitted + 1))
  }

  function CommitStep(s: State): State
    requires s.worker.Writing?
  {
    var w := s.worker;
    var n := if w.taken <= |s.Held()| then w.taken else |s.Held()|;
    var held := s.Held();
    var t := s.(ring := s.ring.Release(w.snap), worker := Resting, done := s.done + held[..n]);
    if w.snap.extEnd > 0 then t.(upper := held[n..], lower := [])
    else t.(upper := if n <= |s.upper| then s.upper[n..] else [])
  }

  function Next(s: State, a: Action): State
    requires Enabled(s, a)
  {
    match a
    case Enter(t) => EnterStep(s, t)
    case Print(t, f) => PrintStep(s, t, f)
    case Lock(t) => LockStep(s, t, s.Pc(t).line, s.Pc(t).maxlen)
    case Wake(t) => s.With(t, Ready(s.Pc(t).line, s.Pc(t).maxlen))
    case Begin => BeginStep(s)
    case Emit(n) => if s.segment then EmitRecord(s) else EmitPlain(s, n)
    case Notice => s.(out := s.out + [Dropped(s.worker.drops)], worker := s.worker.(reported := true))
    case Commit => CommitStep(s)
  }

  /** In segment mode callers keep a line's record below the line limit. */
  predicate Modest(segment: bool, a: Action)
  {
    a.Print? && segment && a.f.ret > 0 && |a.f.buff| == MAX_LINE ==> |LineOf(a.f)| + FRAME_OVERHEAD < MAX_LINE
  }

  /** A run: states and the actions between them. */
  ghost predicate Run(states: seq<State>, actions: seq<Action>)
  {
    && |states| == |actions| + 1
    && Init(states[0])
    && (forall i :: 0 <= i < |actions| ==> Enabled(states[i], actions[i]) && states[i + 1] == Next(states[i], actions[i]))
    && (forall i :: 0 <= i < |actions| ==> Modest(states[0].segment, actions[i]))
  }

  // ----- What the output stream says -----

  function TextOf(out: seq<Event>): seq<byte>
  {
    if out == [] then []
    else TextOf(out[..|out| - 1]) + if out[|out| - 1].Text? then out[|out| - 1].bytes else []
  }

  function TextsOf(out: seq<Event>): seq<Line>
  {
    if out == [] then []
    else TextsOf(out[..|out| - 1]) + if out[|out| - 1].Text? then [out[|out| - 1].bytes] else []
  }

  function ReportedIn(out: seq<Event>): nat
  {
    if out == [] then 0
    else ReportedIn(out[..|out| - 1]) + if out[|out| - 1].Dropped? then out[|out| - 1].count else 0
  }

  lemma OutSnoc(out: seq<Event>, e: Event)
    ensures TextOf(out + [e]) == TextOf(out) + if e.Text? then e.bytes else []
    ensures TextsOf(out + [e]) == TextsOf(out) + if e.Text? then [e.bytes] else []
    ensures ReportedIn(out + [e]) == ReportedIn(out) + if e.Dropped? then e.count else 0
  {
    assert (out + [e])[..|out|] == out;
  }
}
