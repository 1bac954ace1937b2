/** The byte buffer of one log and the arithmetic on `start`, `end` and `ext_end`. */
module Ring {
  import opened Bytes
  import opened Segments

  const MAX_LINE: nat := 1024

  /** What the worker copies out of the log under the lock. */
  datatype Snapshot = Snapshot(len: int, extLen: int, end: int, extEnd: int)
  {
    function Total(): int { len + extLen }
  }

  datatype Ring = Ring(buff: seq<byte>, start: int, end: int, extEnd: int)
  {
    /** The free space the code computes; the one case it leaves alone keeps the caller's old value. */
    function Room(stale: int): int
    {
      if end == start then (if extEnd == 0 then |buff| - end else stale)
      else if end > start then |buff| - end
      else start - end
    }

    predicate HasRoom() { Room(0) >= MAX_LINE }

    predicate HasData() { end != start || extEnd > 0 }

    /** Whether an append of n bytes stays inside the buffer. */
    predicate Fits(n: nat) { 0 <= end && end + n <= |buff| }

    function Append(bytes: seq<byte>): (r: Ring)
      requires Fits(|bytes|)
    {
      var e := end + |bytes|;
      var b := buff[..end] + bytes + buff[e..];
      if e > |buff| - MAX_LINE then Ring(b, start, 0, e) else Ring(b, start, e, extEnd)
    }

    function Take(): Snapshot
    {
      var len0 := if extEnd > 0 then extEnd - start else 0;
      var extend := if extEnd > 0 then extEnd else 0;
      if end < start then Snapshot(len0, end, end, extend)
      else if end > start then Snapshot(end - start, 0, end, extend)
      else Snapshot(len0, 0, end, extend)
    }

    function Release(snap: Snapshot): Ring
    {
      Ring(buff, snap.end, end, if snap.extEnd > 0 then 0 else extEnd)
    }

    /** The shapes a log can be in. */
    predicate Linear() { extEnd == 0 && 0 <= start <= end }
    predicate Wrapped() { 0 <= end < start < extEnd <= |buff| }
    predicate Full() { start == end == 0 < extEnd <= |buff| }

    predicate Shape()
    {
      && |buff| >= MAX_LINE
      && 0 <= start <= |buff| - MAX_LINE
      && 0 <= end <= |buff| - MAX_LINE
      && (extEnd > 0 ==> extEnd > |buff| - MAX_LINE)
      && (Linear() || Wrapped() || Full())
    }

    /** The unread bytes at and above `start`, and those below it. */
    function Upper(): seq<byte>
      requires Shape()
    {
      if extEnd == 0 then buff[start..end] else buff[start..extEnd]
    }

    function Lower(): seq<byte>
      requires Shape()
    {
      if extEnd == 0 then [] else buff[..end]
    }

    function Unread(): seq<byte>
      requires Shape()
    {
      Upper() + Lower()
    }

    /** The snapshot's two slices as the worker reads them from the shared buffer. */
    predicate InBounds(snap: Snapshot)
    {
      0 <= snap.len && 0 <= snap.extLen <= |buff| && 0 <= start && start + snap.len <= |buff|
    }

    function Slices(snap: Snapshot): (s: seq<byte>)
      requires InBounds(snap)
      ensures |s| == snap.Total()
    {
      buff[start..start + snap.len] + buff[..snap.extLen]
    }
  }

  function Empty(buff: seq<byte>): Ring { Ring(buff, 0, 0, 0) }

  /** A ring keeps its shape under an append of less than a line, grows by exactly those bytes, and
      writes no unread byte. */
  lemma AppendKeeps(r: Ring, bytes: seq<byte>)
    requires r.Shape() && r.HasRoom() && 0 < |bytes| < MAX_LINE
    ensures r.Fits(|bytes|)
    ensures r.Append(bytes).Shape()
    ensures r.Append(bytes).Unread() == r.Unread() + bytes
    ensures r.extEnd == 0 ==> r.Append(bytes).Upper() == r.Upper() + bytes && r.Append(bytes).Lower() == []
    ensures r.extEnd > 0 ==> r.Append(bytes).Upper() == r.Upper() && r.Append(bytes).Lower() == r.Lower() + bytes
    ensures r.Append(bytes).start == r.start && |r.Append(bytes).buff| == |r.buff|
    ensures r.extEnd > 0 ==> r.Append(bytes).extEnd == r.extEnd && r.Append(bytes).end == r.end + |bytes|
    ensures r.extEnd == 0 ==> r.end < if r.Append(bytes).extEnd == 0 then r.Append(bytes).end else r.Append(bytes).extEnd
  {
    var q := r.Append(bytes);
    var e := r.end + |bytes|;
    assert q.buff[r.end..e] == bytes;
    if r.extEnd == 0 {
      assert q.buff[r.start..e] == r.buff[r.start..r.end] + bytes;
      assert q.Unread() == q.Upper();
      assert r.Unread() == r.Upper();
    } else {
      assert q.buff[..e] == r.buff[..r.end] + bytes;
      assert q.buff[r.start..r.extEnd] == r.buff[r.start..r.extEnd];
    }
  }

  /** Room for a line is there in every linear state, never in the full one, and in a wrapped one
      exactly when the gap is a line long. */
  lemma RoomByShape(r: Ring, stale: int)
    requires r.Shape()
    ensures r.Linear() ==> r.HasRoom()
    ensures r.Full() ==> !r.HasRoom()
    ensures r.Wrapped() ==> (r.HasRoom() <==> r.start - r.end >= MAX_LINE)
    ensures stale < MAX_LINE ==> (r.Room(stale) >= MAX_LINE <==> r.HasRoom())
  {
  }

  /** The snapshot arithmetic covers exactly the unread bytes. */
  lemma TakeCoversUnread(r: Ring)
    requires r.Shape()
    ensures r.InBounds(r.Take())
    ensures r.Slices(r.Take()) == r.Unread()
    ensures r.HasData() <==> r.Unread() != []
    ensures r.HasData() <==> r.Take().Total() > 0
  {
  }

  /** Releasing a snapshot nobody appended to leaves the log empty, with room for a line. */
  lemma ReleaseAll(r: Ring)
    requires r.Shape()
    ensures r.Release(r.Take()).Shape() && !r.Release(r.Take()).HasData()
    ensures r.Release(r.Take()).Unread() == [] && r.Release(r.Take()).HasRoom()
  {
  }

  /** An append of n bytes is harmless in every state the room test lets through. */
  ghost predicate AlwaysSafe(n: nat)
  {
    forall r: Ring, bytes: seq<byte> ::
      r.Shape() && r.HasRoom() && |bytes| == n ==>
        r.Fits(|bytes|) && r.Append(bytes).Shape() && r.Append(bytes).Unread() == r.Unread() + bytes
  }

  /** The room test protects exactly the appends that are shorter than a line. */
  lemma AlwaysSafeExactly(n: nat)
    requires n > 0
    ensures AlwaysSafe(n) <==> n < MAX_LINE
  {
    if n < MAX_LINE {
      forall r: Ring, bytes: seq<byte> | r.Shape() && r.HasRoom() && |bytes| == n
        ensures r.Fits(|bytes|) && r.Append(bytes).Shape() && r.Append(bytes).Unread() == r.Unread() + bytes
      {
        AppendKeeps(r, bytes);
      }
    } else {
      var bytes: seq<byte> := seq(n, _ => 0);
      var r := Ring(seq(2 * MAX_LINE, _ => 0), MAX_LINE, 0, 2 * MAX_LINE);
      assert r.Shape() && r.HasRoom();
      assert !(r.Fits(n) && r.Append(bytes).Shape() && r.Append(bytes).Unread() == r.Unread() + bytes) by {
        OverlongHurts(r, bytes);
      }
      assert !AlwaysSafe(n);
    }
  }

  /** In a wrapped ring whose gap is one line long, an append of a line or more does not fit, breaks
      the shape or leaves fewer unread bytes than it should. */
  lemma OverlongHurts(r: Ring, bytes: seq<byte>)
    requires |r.buff| == 2 * MAX_LINE && r.start == MAX_LINE && r.end == 0 && r.extEnd == 2 * MAX_LINE
    requires |bytes| >= MAX_LINE
    ensures !(r.Fits(|bytes|) && r.Append(bytes).Shape() && r.Append(bytes).Unread() == r.Unread() + bytes)
  {
    assert r.Shape() && |r.Unread()| == MAX_LINE;
    if r.Fits(|bytes|) && r.Append(bytes).Shape() {
      var q := r.Append(bytes);
      assert q.start == MAX_LINE && |q.buff| == 2 * MAX_LINE;
      assert |q.Unread()| <= MAX_LINE;
      assert |r.Unread() + bytes| >= 2 * MAX_LINE;
    }
  }

  /** Segment mode appends the frame but tests room for the text only: it is safe in every state
      with room exactly when the text leaves seven bytes below the line limit. */
  lemma SegmentSafeExactly(line: Line)
    requires 0 < |line| < MAX_LINE
    ensures AlwaysSafe(|Frame(false, line)|)
    ensures AlwaysSafe(|Frame(true, line)|) <==> |line| + FRAME_OVERHEAD < MAX_LINE
  {
    AlwaysSafeExactly(|Frame(false, line)|);
    AlwaysSafeExactly(|Frame(true, line)|);
  }

  /** An append that exactly fills the gap of a wrapped ring: the next snapshot sees only the upper
      part, and its release throws away the lower part with the line just accepted. */
  lemma ExactFitIsLost(r: Ring, bytes: seq<byte>)
    requires r.Shape() && r.Wrapped() && |bytes| == r.start - r.end
    ensures r.Fits(|bytes|)
    ensures var q := r.Append(bytes);
      && q.HasData() && q.InBounds(q.Take()) && q.Take().extLen == 0
      && q.Slices(q.Take()) == r.Upper()
      && !q.Release(q.Take()).HasData()
  {
    var q := r.Append(bytes);
    assert q.start == q.end == r.start && q.extEnd == r.extEnd && |q.buff| == |r.buff|;
    assert q.Take() == Snapshot(r.extEnd - r.start, 0, r.start, r.extEnd);
    forall k | r.start <= k < r.extEnd
      ensures q.buff[k] == r.buff[k]
    {
    }
    assert q.buff[r.start..r.extEnd] == r.buff[r.start..r.extEnd];
  }

  // ----- A record of a whole line's length, in a ring of the smallest legal size -----

  lemma StoreFirst(r0: Ring, c: seq<byte>)
    requires |r0.buff| == 2 * MAX_LINE && r0 == Empty(r0.buff) && |c| == MAX_LINE
    ensures r0.HasRoom() && r0.Fits(|c|)
    ensures r0.Append(c) == Ring(c + r0.buff[MAX_LINE..], 0, MAX_LINE, 0)
  {
    assert r0.buff[..0] + c + r0.buff[MAX_LINE..] == c + r0.buff[MAX_LINE..];
  }

  lemma PassFirst(r1: Ring, c: seq<byte>)
    requires |r1.buff| == 2 * MAX_LINE && r1.start == 0 && r1.end == MAX_LINE && r1.extEnd == 0
    requires r1.buff[..MAX_LINE] == c
    ensures r1.HasData() && r1.InBounds(r1.Take()) && r1.Take().extLen == 0 && r1.Slices(r1.Take()) == c
    ensures r1.Release(r1.Take()) == Ring(r1.buff, MAX_LINE, MAX_LINE, 0)
  {
    assert r1.Take() == Snapshot(MAX_LINE, 0, MAX_LINE, 0);
    assert r1.buff[..0] == [];
  }

  lemma StoreShort(r2: Ring, b: seq<byte>)
    requires |r2.buff| == 2 * MAX_LINE && r2 == Ring(r2.buff, MAX_LINE, MAX_LINE, 0) && 0 < |b| < MAX_LINE
    ensures r2.HasRoom() && r2.Fits(|b|)
    ensures var r3 := r2.Append(b);
      && |r3.buff| == 2 * MAX_LINE && r3 == Ring(r3.buff, MAX_LINE, 0, MAX_LINE + |b|)
      && r3.Shape() && r3.Wrapped() && r3.HasRoom() && r3.Fits(MAX_LINE)
      && r3.Upper() == b
  {
    var r3 := r2.Append(b);
    assert r3.buff == r2.buff[..MAX_LINE] + b + r2.buff[MAX_LINE + |b|..];
    assert r3.buff[MAX_LINE..MAX_LINE + |b|] == b;
  }

  /** What such a record does to a fresh log: the record, a pass of the worker, a short record that
      wraps the buffer, and the long one again. Each passes the room test; but the next pass sees the
      short one only, and the last is gone. */
  lemma OverlongRecordIsLost(r0: Ring, c: seq<byte>, b: seq<byte>) returns (r1: Ring, r2: Ring, r3: Ring, r4: Ring)
    requires r0 == Empty(r0.buff) && |r0.buff| == 2 * MAX_LINE && |c| == MAX_LINE && 0 < |b| < MAX_LINE
    ensures r0.HasRoom() && r0.Fits(|c|) && r1 == r0.Append(c)
    ensures r1.HasData() && r1.InBounds(r1.Take()) && r1.Take().extLen == 0 && r1.Slices(r1.Take()) == c
    ensures r2 == r1.Release(r1.Take())
    ensures r2.HasRoom() && r2.Fits(|b|) && r3 == r2.Append(b)
    ensures r3.HasRoom() && r3.Fits(|c|) && r4 == r3.Append(c)
    ensures r4.HasData() && r4.InBounds(r4.Take()) && r4.Take().extLen == 0 && r4.Slices(r4.Take()) == b
    ensures !r4.Release(r4.Take()).HasData()
  {
    hide Ring.Append, Ring.Take, Ring.Release, Ring.Slices, Ring.InBounds, Ring.HasRoom, Ring.HasData, Ring.Shape, Ring.Upper, Ring.Fits, Ring.Wrapped;
    StoreFirst(r0, c);
    r1 := r0.Append(c);
    assert r1.buff[..MAX_LINE] == c;
    PassFirst(r1, c);
    r2 := r1.Release(r1.Take());
    StoreShort(r2, b);
    r3 := r2.Append(b);
    ExactFitIsLost(r3, c);
    r4 := r3.Append(c);
  }
}
