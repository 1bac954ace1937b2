/** One log as the program keeps it: a byte array and four integers updated in place. Each method is
    one stretch of code under `tlog.lock`, or the output work done without it, and is tied to the
    ring functions the step system is built from. */
module TlogLog {
  import opened Bytes
  import opened Segments
  import opened Ring
  import opened LogSystem
  import opened LogSafety
  import opened LogTheorems
  import opened PrintCalls

  /** A log as a value. */
  datatype LogValue = LogValue(ring: Ring, segment: bool, dropped: nat, out: seq<Event>)

  /** The log had room, took the line at its end, and changed in nothing else. */
  ghost predicate Stores(at: LogValue, line: Line, now: LogValue)
  {
    var f := Frame(at.segment, line);
    at.ring.HasRoom() && at.ring.Fits(|f|) && now == at.(ring := at.ring.Append(f))
  }

  datatype Outcome = Accepted | Refused | MustWait

  class Log {
    const buff: array<byte>
    const segment: bool
    const block: bool
    var start: int
    var end: int
    var extEnd: int
    var dropped: nat
    var out: seq<Event>  // what the output callback has been given

    ghost function View(): Ring
      reads this, buff
    {
      Ring(buff[..], start, end, extEnd)
    }

    /** The log as a value. */
    ghost function Now(): LogValue
      reads this, buff
    {
      LogValue(View(), segment, dropped, out)
    }

    ghost predicate Valid()
      reads this, buff
    {
      View().Shape()
    }

    constructor (size: nat, segment: bool, block: bool)
      ensures View() == Empty(buff[..]) && buff.Length == size && fresh(buff)
      ensures Valid() <==> size >= MAX_LINE
      ensures this.segment == segment && this.block == block && dropped == 0 && out == []
    {
      buff := new byte[size];
      this.segment, this.block := segment, block;
      start, end, extEnd, dropped, out := 0, 0, 0, 0, [];
    }

    /** The free space as the program computes it, keeping the old value in the full state. */
    method FreeSpace(stale: int) returns (maxlen: int)
      ensures maxlen == View().Room(stale)
    {
      maxlen := stale;
      if end == start {
        if extEnd == 0 {
          maxlen := buff.Length - end;
        }
      } else if end > start {
        maxlen := buff.Length - end;
      } else {
        maxlen := start - end;
      }
    }

    /** The early check of `_tlog_need_drop`. */
    method NeedDrop() returns (refused: bool)
      modifies this`dropped
      ensures refused <==> !block && !View().HasRoom()
      ensures dropped == old(dropped) + if refused then 1 else 0
    {
      if block {
        return false;
      }
      var maxlen := FreeSpace(0);
      refused := false;
      if maxlen < MAX_LINE {
        dropped := dropped + 1;
        refused := true;
      }
    }

    method CopyIn(at: nat, bytes: seq<byte>)
      requires at + |bytes| <= buff.Length
      modifies buff
      ensures buff[..] == old(buff[..at]) + bytes + old(buff[at + |bytes|..])
    {
      forall i | 0 <= i < |bytes| {
        buff[at + i] := bytes[i];
      }
    }

    /** The copy of a line into the buffer and the early wrap. It stays inside the buffer when it fits
        at `end`; with room for a line and a frame shorter than one, the log stays in shape and its
        unread bytes grow by the frame. */
    method Store(line: Line)
      requires View().Fits(|Frame(segment, line)|)
      modifies this`end, this`extEnd, buff
      ensures View() == old(View()).Append(Frame(segment, line))
      ensures old(Valid() && View().HasRoom()) && 0 < |Frame(segment, line)| < MAX_LINE ==>
        Valid() && View().Unread() == old(View()).Unread() + Frame(segment, line)
    {
      ghost var r := View();
      hide Ring.Shape, Ring.Unread, Ring.HasRoom, Frame;
      var f := Frame(segment, line);
      CopyIn(end, f);
      end := end + |f|;
      if end > buff.Length - MAX_LINE {
        extEnd := end;
        end := 0;
      }
      assert View() == r.Append(f);
      if r.Shape() && r.HasRoom() && 0 < |f| < MAX_LINE {
        AppendKeeps(r, f);
      }
    }

    /** One turn of the append loop of `_tlog_vprintf`: test the room and then store, refuse or wait. */
    method TryAppend(line: Line, stale: int) returns (outcome: Outcome, maxlen: int)
      requires Valid() && stale < MAX_LINE
      requires View().HasRoom() ==> View().Fits(|Frame(segment, line)|)
      modifies this`end, this`extEnd, this`dropped, buff
      ensures maxlen == old(View()).Room(stale)
      ensures 0 < |Frame(segment, line)| < MAX_LINE ==> Valid()
      ensures outcome == if old(View()).HasRoom() then Accepted else if block then MustWait else Refused
      ensures outcome.Accepted? ==> View() == old(View()).Append(Frame(segment, line)) && dropped == old(dropped)
      ensures !outcome.Accepted? ==> View() == old(View()) && dropped == old(dropped) + if outcome.Refused? then 1 else 0
    {
      RoomByShape(View(), stale);
      maxlen := FreeSpace(stale);
      if maxlen < MAX_LINE {
        if !block {
          dropped := dropped + 1;
          return Refused, maxlen;
        }
        return MustWait, maxlen;
      }
      Store(line);
      outcome := Accepted;
    }

    /** Everyone else's turn while a thread does not hold the lock: the other threads may leave the log
        in any state that is in shape. */
    method Others()
      requires Valid()
      modifies this, buff
      ensures Valid()
    {
    }

    /** The append loop, giving up after `patience` waits. `trail` is the log each time the lock was
        taken: all but the last without room, so the line goes in the first time there is room, however
        old `maxlen` is, and nothing else changes. */
    method Print(line: Line, patience: nat) returns (outcome: Outcome, waited: nat, ghost trail: seq<LogValue>)
      requires Valid() && 0 < |Frame(segment, line)| < MAX_LINE
      modifies this, buff
      ensures Valid() && |trail| == waited + 1 && trail[0] == old(Now())
      ensures forall k :: 0 <= k < waited ==> !trail[k].ring.HasRoom()
      ensures waited <= patience && (waited > 0 ==> block)
      ensures match outcome
        case Accepted => Stores(trail[waited], line, Now())
        case Refused => !block && !trail[waited].ring.HasRoom() &&
          Now() == trail[waited].(dropped := trail[waited].dropped + 1)
        case MustWait => block && !trail[waited].ring.HasRoom() && waited == patience && Now() == trail[waited]
    {
      hide Ring.Append, Ring.Shape, Ring.Room, Ring.Fits, Frame;
      var maxlen := 0;
      waited, trail := 0, [Now()];
      FrameFits(View(), Frame(segment, line));
      RoomByShape(View(), maxlen);
      outcome, maxlen := TryAppend(line, maxlen);
      while outcome.MustWait? && waited < patience
        invariant outcome.MustWait? ==> maxlen < MAX_LINE
        invariant Valid() && |trail| == waited + 1 && trail[0] == old(Now())
        invariant forall k :: 0 <= k < waited ==> !trail[k].ring.HasRoom()
        invariant waited <= patience && (waited > 0 ==> block)
        invariant outcome == if trail[waited].ring.HasRoom() then Accepted else if block then MustWait else Refused
        invariant outcome.Accepted? ==> Stores(trail[waited], line, Now())
        invariant outcome.Refused? ==> Now() == trail[waited].(dropped := trail[waited].dropped + 1)
        invariant outcome.MustWait? ==> Now() == trail[waited]
        decreases patience - waited
      {
        Others();
        waited, trail := waited + 1, trail + [Now()];
        FrameFits(View(), Frame(segment, line));
        RoomByShape(View(), maxlen);
        outcome, maxlen := TryAppend(line, maxlen);
      }
    }

    /** A whole print call: the early check, the callback's text `f`, and the append loop; between them the
        lock is free. It returns the length of the text when that went in, and -1 otherwise. */
    method Vprintf(f: Formatted, patience: nat) returns (ret: int, ghost trail: seq<LogValue>)
      requires Valid() && |f.buff| == 1024
      requires segment && f.ret > 0 ==> |Printed(f)| + FRAME_OVERHEAD < MAX_LINE
      modifies this, buff
      ensures Valid()
      ensures ret == -1 || (f.ret > 0 && ret == |Printed(f)|)
      ensures old(!block && !View().HasRoom()) ==> ret == -1 && Now() == old(Now().(dropped := dropped + 1))
      ensures f.ret <= 0 && old(block || View().HasRoom()) ==> ret == -1 && |trail| == 1 && Now() == trail[0]
      ensures ret > 0 ==> trail != [] && Stores(trail[|trail| - 1], Printed(f), Now())
      ensures ret == -1 && f.ret > 0 && old(block || View().HasRoom()) ==>
        trail != [] && (forall k :: 0 <= k < |trail| ==> !trail[k].ring.HasRoom()) &&
        if block then |trail| == patience + 1 && Now() == trail[patience]
        else |trail| == 1 && Now() == trail[0].(dropped := trail[0].dropped + 1)
    {
      hide Ring.Append, Ring.Shape, Ring.Room, Ring.Fits, Frame, Printed, LineOf;
      trail := [];
      var refused := NeedDrop();
      if refused {
        return -1, [];
      }
      Others();
      if f.ret <= 0 {
        return -1, [Now()];
      }
      var line := LineOf(f);
      PrintedIsLine(f);
      FrameLength(segment, line);
      var outcome, waited;
      outcome, waited, trail := Print(line, patience);
      ret := if outcome.Accepted? then |line| else -1;
    }

    method HasData() returns (has: bool)
      ensures has <==> View().HasData()
    {
      has := end != start || extEnd > 0;
    }

    /** The worker's snapshot under the lock. */
    method TakeSnapshot() returns (snap: Snapshot, drops: nat)
      modifies this`dropped
      ensures snap == View().Take() && drops == old(dropped) && dropped == 0
    {
      var len, extLen, extend := 0, 0, 0;
      if extEnd > 0 {
        len := extEnd - start;
        extend := extEnd;
      }
      if end < start {
        extLen := end;
      } else if end > start {
        len := end - start;
      }
      snap := Snapshot(len, extLen, end, extend);
      drops := dropped;
      dropped := 0;
    }

    /** The record parser over one slice. */
    method WriteOneSegment(base: nat, len: nat)
      requires base + len <= buff.Length
      modifies this`out
      ensures out == old(out) + AsTexts(Parse(buff[..], base, len, 0))
    {
      hide Decode, Parse, AsTexts;
      ghost var mem := buff[..];
      ghost var given: seq<Line> := [];
      var writeLen := 0;
      assert AsTexts(given) == [] by { NoTexts(); }
      while writeLen < len
        invariant buff[..] == mem
        invariant Parse(mem, base, len, 0) == given + Parse(mem, base, len, writeLen)
        invariant out == old(out) + AsTexts(given)
        decreases len - writeLen
      {
        ParseStep(mem, base, len, writeLen);
        match Decode(buff[..], base + writeLen) {
          case Record(text, size) =>
            ParseGrows(mem, base, len, writeLen, given, text, size);
            AsTextsSnoc(given, text);
            out := out + [Text(text)];
            given := given + [text];
            writeLen := writeLen + size;
          case _ =>
            assert given + [] == given;
            return;
        }
      }
      ParseStep(mem, base, len, writeLen);
      assert given + [] == given;
    }

    method WriteSegments(snap: Snapshot)
      requires View().InBounds(snap)
      modifies this`out
      ensures out == old(out) + AsTexts(Parse(buff[..], start, snap.len, 0)) + AsTexts(Parse(buff[..], 0, snap.extLen, 0))
    {
      WriteOneSegment(start, snap.len);
      if snap.extLen > 0 {
        WriteOneSegment(0, snap.extLen);
      }
    }

    method WriteBuff(snap: Snapshot)
      requires View().InBounds(snap)
      modifies this`out
      ensures out == old(out) + PlainEvents(View(), snap)
    {
      out := out + [Text(buff[start..start + snap.len])];
      if snap.extLen > 0 {
        out := out + [Text(buff[..snap.extLen])];
      }
    }

    /** The output work, done without the lock. */
    method WorkWrite(snap: Snapshot, drops: nat)
      requires View().InBounds(snap)
      modifies this`out
      ensures out == old(out) + PassEvents(View(), segment, snap, drops)
    {
      hide Parse, AsTexts, Ring.InBounds;
      if segment {
        WriteSegments(snap);
      } else {
        WriteBuff(snap);
      }
      if drops > 0 {
        out := out + [Dropped(drops)];
      }
    }

    /** The release of what was written, under the lock again. */
    method Release(snap: Snapshot)
      modifies this`start, this`extEnd
      ensures View() == old(View()).Release(snap)
    {
      start := snap.end;
      if snap.extEnd > 0 {
        extEnd := 0;
      }
    }

    /** A whole pass of the worker with no printing thread in between. */
    method Pass()
      requires Valid()
      modifies this`start, this`extEnd, this`dropped, this`out
      ensures Valid() && !View().HasData() && View().Unread() == [] && dropped == 0
      ensures out == old(out) + PassEvents(old(View()), segment, old(View()).Take(), old(dropped))
    {
      ghost var r := View();
      TakeCoversUnread(r);
      ReleaseAll(r);
      var snap, drops := TakeSnapshot();
      WorkWrite(snap, drops);
      Release(snap);
    }
  }

  lemma FrameLength(segment: bool, line: Line)
    requires 0 < |line| < MAX_LINE && (segment ==> |line| + FRAME_OVERHEAD < MAX_LINE)
    ensures 0 < |Frame(segment, line)| < MAX_LINE
  {
  }

  lemma FrameFits(r: Ring, f: seq<byte>)
    requires r.Shape() && |f| < MAX_LINE
    ensures r.HasRoom() ==> r.Fits(|f|)
  {
  }

  function AsTexts(lines: seq<Line>): seq<Event>
  {
    seq(|lines|, i requires 0 <= i < |lines| => Text(lines[i]))
  }

  lemma AsTextsSnoc(lines: seq<Line>, x: Line)
    ensures AsTexts(lines + [x]) == AsTexts(lines) + [Text(x)]
  {
  }

  /** One turn of the parser. */
  lemma ParseStep(mem: seq<byte>, base: nat, len: nat, pos: nat)
    ensures pos >= len || !Decode(mem, base + pos).Record? ==> Parse(mem, base, len, pos) == []
    ensures pos < len && Decode(mem, base + pos).Record? ==>
      var found := Decode(mem, base + pos);
      Parse(mem, base, len, pos) == [found.text] + Parse(mem, base, len, pos + found.size)
  {
    hide Decode;
  }

  lemma ParseGrows(mem: seq<byte>, base: nat, len: nat, pos: nat, given: seq<Line>, text: Line, size: nat)
    requires pos < len && Decode(mem, base + pos) == Record(text, size)
    ensures given + Parse(mem, base, len, pos) == (given + [text]) + Parse(mem, base, len, pos + size)
  {
    hide Decode, Parse;
    ParseStep(mem, base, len, pos);
  }

  function PlainEvents(r: Ring, snap: Snapshot): seq<Event>
    requires r.InBounds(snap)
  {
    [Text(r.buff[r.start..r.start + snap.len])] + if snap.extLen > 0 then [Text(r.buff[..snap.extLen])] else []
  }

  function PassEvents(r: Ring, segment: bool, snap: Snapshot, drops: nat): seq<Event>
    requires r.InBounds(snap)
  {
    (if segment then AsTexts(Parse(r.buff, r.start, snap.len, 0)) + AsTexts(Parse(r.buff, 0, snap.extLen, 0))
     else PlainEvents(r, snap)) +
    if drops > 0 then [Dropped(drops)] else []
  }

  lemma {:induction false} TextOfConcat(a: seq<Event>, b: seq<Event>)
    ensures TextOf(a + b) == TextOf(a) + TextOf(b)
    ensures TextsOf(a + b) == TextsOf(a) + TextsOf(b)
    ensures ReportedIn(a + b) == ReportedIn(a) + ReportedIn(b)
  {
    if b == [] {
      assert a + b == a;
    } else {
      var c, e := b[..|b| - 1], b[|b| - 1];
      assert b == c + [e];
      assert a + b == (a + c) + [e];
      TextOfConcat(a, c);
      OutSnoc(a + c, e);
      OutSnoc(c, e);
    }
  }

  lemma TextOfOne(e: Event)
    ensures TextOf([e]) == if e.Text? then e.bytes else []
    ensures ReportedIn([e]) == if e.Dropped? then e.count else 0
  {
    OutSnoc([], e);
    assert [] + [e] == [e];
  }

  lemma PlainDelivers(r: Ring, snap: Snapshot)
    requires r.InBounds(snap)
    ensures TextOf(PlainEvents(r, snap)) == r.Slices(snap)
    ensures ReportedIn(PlainEvents(r, snap)) == 0
  {
    hide TextOf, ReportedIn;
    var up, low := r.buff[r.start..r.start + snap.len], r.buff[..snap.extLen];
    TextOfOne(Text(up));
    if snap.extLen > 0 {
      TextOfOne(Text(low));
      TextOfConcat([Text(up)], [Text(low)]);
    } else {
      assert PlainEvents(r, snap) == [Text(up)];
      assert r.Slices(snap) == up;
    }
  }

  /** A pass over a plain log that is in shape puts out exactly its unread bytes, then the drop count. */
  lemma PassDelivers(r: Ring, drops: nat)
    requires r.Shape()
    ensures r.InBounds(r.Take())
    ensures TextOf(PassEvents(r, false, r.Take(), drops)) == r.Unread()
    ensures ReportedIn(PassEvents(r, false, r.Take(), drops)) == drops
  {
    hide TextOf, ReportedIn, PlainEvents;
    TakeCoversUnread(r);
    hide Ring.Shape, Ring.Take, Ring.Unread, Ring.InBounds, Ring.Slices;
    var plain := PlainEvents(r, r.Take());
    PlainDelivers(r, r.Take());
    if drops > 0 {
      TextOfOne(Dropped(drops));
      TextOfConcat(plain, [Dropped(drops)]);
    } else {
      assert plain + [] == plain;
    }
  }

  lemma {:induction false} TextsOfTexts(lines: seq<Line>)
    ensures TextsOf(AsTexts(lines)) == lines
  {
    hide TextsOf;
    if lines != [] {
      var n := |lines| - 1;
      assert lines == lines[..n] + [lines[n]];
      AsTextsSnoc(lines[..n], lines[n]);
      TextsOfTexts(lines[..n]);
      OutSnoc(AsTexts(lines[..n]), Text(lines[n]));
    } else {
      NoTexts();
    }
  }

  lemma NoTexts()
    ensures AsTexts([]) == [] && TextsOf(AsTexts([])) == [] && ReportedIn(AsTexts([])) == 0
  {
  }

  /** A pass over a segment log whose two halves are whole records puts out exactly their texts, and
      announces the drops. */
  lemma PassDeliversRecords(r: Ring, upper: seq<Line>, lower: seq<Line>, drops: nat)
    requires RingInv(true, r, upper, lower)
    ensures r.InBounds(r.Take())
    ensures TextsOf(PassEvents(r, true, r.Take(), drops)) == upper + lower
    ensures ReportedIn(PassEvents(r, true, r.Take(), drops)) == drops
  {
    hide TextsOf, ReportedIn, Parse, ParseEnd, AsTexts, Flat, Frame, RingInv, FlightInv;
    ShapeOf(true, r, upper, lower);
    TakeCoversUnread(r);
    var snap := r.Take();
    PassReports(r, true, snap, drops);
    var a, b := Parse(r.buff, r.start, snap.len, 0), Parse(r.buff, 0, snap.extLen, 0);
    if r.HasData() {
      var w := Writing(snap, |upper + lower|, 0, 0, 0, false);
      BeginFlight(true, r, upper, lower, w);
      TwoParses(r, upper, lower, w);
      assert (upper + lower)[..|upper + lower|] == upper + lower;
    } else {
      NothingHeld(r, upper, lower);
      EmptyParse(r.buff, r.start);
      EmptyParse(r.buff, 0);
    }
    assert a + b == upper + lower;
    TextsOfTexts(a);
    TextsOfTexts(b);
    TextOfConcat(AsTexts(a), AsTexts(b));
    if drops > 0 {
      TextOfConcat(AsTexts(a) + AsTexts(b), [Dropped(drops)]);
      OneNotice(drops);
    } else {
      assert AsTexts(a) + AsTexts(b) + [] == AsTexts(a) + AsTexts(b);
    }
  }

  lemma {:induction false} NoDropsInTexts(lines: seq<Line>)
    ensures ReportedIn(AsTexts(lines)) == 0
  {
    hide ReportedIn;
    if lines != [] {
      var n := |lines| - 1;
      assert lines == lines[..n] + [lines[n]];
      AsTextsSnoc(lines[..n], lines[n]);
      NoDropsInTexts(lines[..n]);
      OutSnoc(AsTexts(lines[..n]), Text(lines[n]));
    } else {
      NoTexts();
    }
  }

  /** In either mode a pass announces exactly the drops it took, after everything else it puts out. */
  lemma PassReports(r: Ring, segment: bool, snap: Snapshot, drops: nat)
    requires r.InBounds(snap)
    ensures var events := PassEvents(r, segment, snap, drops);
      && ReportedIn(events) == drops
      && (drops > 0 ==> events != [] && events[|events| - 1] == Dropped(drops))
      && forall k :: 0 <= k < |events| - One(drops > 0) ==> events[k].Text?
  {
    hide TextOf, TextsOf, ReportedIn, Parse, PlainEvents;
    var a, b := Parse(r.buff, r.start, snap.len, 0), Parse(r.buff, 0, snap.extLen, 0);
    var texts := if segment then AsTexts(a) + AsTexts(b) else PlainEvents(r, snap);
    assert ReportedIn(texts) == 0 && forall k :: 0 <= k < |texts| ==> texts[k].Text? by {
      if segment {
        NoDropsInTexts(a);
        NoDropsInTexts(b);
        TextOfConcat(AsTexts(a), AsTexts(b));
      } else {
        PlainDelivers(r, snap);
        PlainTexts(r, snap);
      }
    }
    if drops > 0 {
      TextOfConcat(texts, [Dropped(drops)]);
      TextOfOne(Dropped(drops));
      assert PassEvents(r, segment, snap, drops) == texts + [Dropped(drops)];
    } else {
      assert PassEvents(r, segment, snap, drops) == texts;
    }
  }

  function One(b: bool): nat { if b then 1 else 0 }

  lemma PlainTexts(r: Ring, snap: Snapshot)
    requires r.InBounds(snap)
    ensures forall k :: 0 <= k < |PlainEvents(r, snap)| ==> PlainEvents(r, snap)[k].Text?
  {
  }

  lemma OneNotice(drops: nat)
    ensures TextsOf([Dropped(drops)]) == []
  {
    OutSnoc([], Dropped(drops));
    assert [] + [Dropped(drops)] == [Dropped(drops)];
  }

  lemma EmptyParse(mem: seq<byte>, base: nat)
    ensures Parse(mem, base, 0, 0) == []
  {
  }

  lemma NothingHeld(r: Ring, upper: seq<Line>, lower: seq<Line>)
    requires RingInv(true, r, upper, lower) && !r.HasData()
    ensures upper == [] && lower == []
    ensures r.start >= 0 && r.Take().len == 0 && r.Take().extLen == 0
  {
    assert r.Upper() == [];
    if upper != [] {
      FlatCons(true, upper);
    }
  }
}
