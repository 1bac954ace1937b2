/** The spool of the receiver: bounded files on disk and the list of their names. */
module Spooling {
  import opened NameList
  import opened Wrappers

  /** One received piece of data; `id` says which one it was. */
  datatype Chunk = Chunk(id: nat, size: nat)
  type Batch = seq<Chunk>

  function Size(b: Batch): nat { if b == [] then 0 else Size(b[..|b| - 1]) + b[|b| - 1].size }

  /** A file is the messages written to it. */
  type Disk = map<Name, seq<Batch>>

  function Flat(f: seq<Batch>): Batch { if f == [] then [] else Flat(f[..|f| - 1]) + f[|f| - 1] }

  function Total(f: seq<Batch>): nat { if f == [] then 0 else Total(f[..|f| - 1]) + Size(f[|f| - 1]) }

  /** The contents of the named files, in order. */
  function TextOfFiles(disk: Disk, names: seq<Name>): Batch
  {
    if names == [] then []
    else
      var n := names[|names| - 1];
      TextOfFiles(disk, names[..|names| - 1]) + if n in disk then Flat(disk[n]) else []
  }

  const NAME_MAX: nat := 255
  const NAME_ROOM: nat := 257

  function Capacity(maxCount: int): nat { if maxCount < 0 then 0 else (maxCount + 1) * NAME_ROOM }

  /** How the file system answers: the name the clock gives, and whether fopen and fwrite succeed. */
  datatype Attempt = Attempt(name: Name, created: bool, written: bool)

  /** `listed` records which names the list stands for and steers nothing; `overrun` records a write
      past the name list. */
  datatype Spool = Spool(
    maxCount: int, maxSize: int, count: int, names: Option<Names>, open: Option<Name>, openSize: int,
    listed: seq<Name>, overrun: bool)
  {
    function Close(): Spool { this.(open := None, openSize := 0) }

    function Reset(): Spool
    {
      if open.Some? && names.Some? then
        this.(count := if count > 0 then count - 1 else count,
              names := Some(names.value.(len := names.value.len - (|open.value| + 1))),
              listed := if listed != [] then listed[..|listed| - 1] else []).Close()
      else Close()
    }

    function Detach(): Spool { Close().(count := 0, names := None, listed := []) }

    /** List a newly created file, starting the list if there is none. */
    function Enlist(name: Name): Spool
    {
      var m := if names.Some? then names.value else Blank(Capacity(maxCount));
      var s := this.(count := count + 1, open := Some(name), openSize := 0, listed := listed + [name]);
      if m.Fits(name) then s.(names := Some(m.Append(name))) else s.(names := Some(m), overrun := true)
    }

    /** The names the sender's walk would see in the pending list. */
    function Visible(): seq<Name>
    {
      if names.Some? then SeenBySender(names.value) else []
    }
  }

  function SeenBySender(m: Names): seq<Name>
  {
    if 0 <= m.len <= |m.data| && m.data != [] then m.Walk() else []
  }

  datatype Written = Written(spool: Spool, disk: Disk, ok: bool)

  function Put(s: Spool, disk: Disk, batch: Batch, written: bool): Written
  {
    if !written || s.open.None? then Written(s, disk, false)
    else
      var n := s.open.value;
      var had := if n in disk then disk[n] else [];
      Written(s.(openSize := s.openSize + Size(batch)), disk[n := had + [batch]], true)
  }

  /** datafile_write_datamsg. */
  function Write(s: Spool, disk: Disk, batch: Batch, a: Attempt): Written
  {
    var len := Size(batch);
    if s.count >= s.maxCount && s.openSize + len > s.maxSize then Written(s, disk, false)
    else
      var c := if s.open.Some? && s.openSize + len > s.maxSize then s.Close() else s;
      if c.open.Some? then Put(c, disk, batch, a.written)
      else if !a.created then Written(c, disk, false)
      else Put(c.Enlist(a.name), if a.name in disk then disk else disk[a.name := []], batch, a.written)
  }

  function Start(maxCount: int, maxSize: int): Spool { Spool(maxCount, maxSize, 0, None, None, 0, [], false) }

  // ----- The invariant -----

  ghost predicate ListInv(s: Spool)
  {
    && s.maxCount >= 1 && !s.overrun
    && s.count == |s.listed| <= s.maxCount
    && (s.names.None? ==> s.listed == [] && s.open.None?)
    && (s.names.Some? ==>
        && Holds(s.names.value, s.listed)
        && s.names.value.len == |Pack(s.listed)|
        && |s.names.value.data| == Capacity(s.maxCount))
    && (forall n :: n in s.listed ==> |n| <= NAME_MAX)
  }

  /** At most maxCount files, strictly fewer unless one is open; an open file is the last one listed,
      once; `openSize` is its size; and every file keeps the size bound or holds one message only. */
  ghost predicate SpoolInv(s: Spool, disk: Disk)
  {
    && ListInv(s)
    && (s.open.None? ==> s.count < s.maxCount && s.openSize == 0)
    && (s.open.Some? ==>
        && s.listed != [] && s.listed[|s.listed| - 1] == s.open.value
        && s.open.value !in s.listed[..|s.listed| - 1]
        && s.open.value in disk && s.openSize == Total(disk[s.open.value]))
    && (forall n :: n in s.listed ==> n in disk)
    && (forall n :: n in s.Visible() ==> n in disk)
    && (forall n :: n in disk ==> Total(disk[n]) <= s.maxSize || |disk[n]| <= 1)
  }

  lemma StartInv(maxCount: int, maxSize: int)
    requires maxCount >= 1
    ensures SpoolInv(Start(maxCount, maxSize), map[])
  {
  }

  lemma VisibleIsListed(s: Spool)
    requires ListInv(s)
    ensures s.listed != [] ==> s.names.Some? && s.Visible() == s.listed
    ensures s.names.None? ==> s.Visible() == []
  {
    hide Pack;
    if s.listed != [] {
      WalkUnpacks(s.names.value, s.listed);
    }
  }

  lemma {:induction false} PackBound(names: seq<Name>)
    requires forall n :: n in names ==> |n| <= NAME_MAX
    ensures |Pack(names)| <= |names| * (NAME_MAX + 1)
  {
    if names != [] {
      var front := names[..|names| - 1];
      assert forall n :: n in front ==> n in names;
      PackBound(front);
      assert names[|names| - 1] in names;
    }
  }

  // ----- Keeping it -----

  lemma EnlistKeepsList(s: Spool, name: Name)
    requires ListInv(s) && s.count < s.maxCount && GoodName(name) && |name| <= NAME_MAX
    ensures ListInv(s.Enlist(name)) && s.Enlist(name).listed == s.listed + [name]
    ensures s.Enlist(name).open == Some(name) && s.Enlist(name).names.Some?
    ensures s.Enlist(name).count == s.count + 1
  {
    hide Pack;
    var m := if s.names.Some? then s.names.value else Blank(Capacity(s.maxCount));
    if s.names.None? {
      PackNil();
      assert m.data[..0] == [];
    }
    PackBound(s.listed);
    PackSnoc(s.listed, name);
    assert m.len <= s.maxCount * (NAME_MAX + 1);
    AppendLists(m, s.listed, name);
  }

  lemma CloseKeepsList(s: Spool)
    requires ListInv(s)
    ensures ListInv(s.Close()) && s.Close().Visible() == s.Visible()
  {
    hide Pack;
  }

  /** The name list always has room for one more name while fewer than the maximum are listed. */
  lemma EnlistFits(s: Spool, name: Name)
    requires ListInv(s) && s.count < s.maxCount && |name| <= NAME_MAX
    ensures (if s.names.Some? then s.names.value else Blank(Capacity(s.maxCount))).Fits(name)
    ensures Capacity(s.maxCount) == (s.maxCount + 1) * NAME_ROOM > 0
  {
    hide Pack, Holds;
    PackBound(s.listed);
    assert |Pack(s.listed)| <= s.maxCount * (NAME_MAX + 1);
  }

  lemma OpenOnDisk(s: Spool, disk: Disk)
    requires SpoolInv(s, disk)
    ensures s.open.Some? ==> s.open.value in disk && s.names.Some?
    ensures s.count <= s.maxCount && ListInv(s)
    ensures s.open.None? ==> s.count < s.maxCount
  {
    hide Pack, Holds, Total, Spool.Visible;
  }

  lemma CloseKeeps(s: Spool, disk: Disk)
    requires SpoolInv(s, disk) && s.count < s.maxCount
    ensures SpoolInv(s.Close(), disk)
  {
    hide Pack, Holds, Total, Spool.Visible;
    SameVisible(s, s.Close());
  }

  /** The file is new: nothing on disk has its name. */
  predicate FreshName(disk: Disk, a: Attempt)
  {
    a.name !in disk && a.name != [] && 0 !in a.name && |a.name| <= NAME_MAX
  }

  lemma TotalSnoc(f: seq<Batch>, b: Batch)
    ensures Total(f + [b]) == Total(f) + Size(b) && Flat(f + [b]) == Flat(f) + b
  {
    assert (f + [b])[..|f|] == f;
  }

  lemma PutKeeps(s: Spool, disk: Disk, batch: Batch, written: bool)
    requires SpoolInv(s, disk) && s.open.Some?
    requires s.openSize + Size(batch) <= s.maxSize || disk[s.open.value] == []
    ensures SpoolInv(Put(s, disk, batch, written).spool, Put(s, disk, batch, written).disk)
  {
    hide Pack, Size, Total, Flat, Holds;
    var n := s.open.value;
    TotalSnoc(disk[n], batch);
    SameVisible(s, Put(s, disk, batch, written).spool);
  }

  lemma SameVisible(s: Spool, t: Spool)
    requires s.names == t.names
    ensures s.Visible() == t.Visible()
  {
  }

  lemma WriteKeeps(s: Spool, disk: Disk, batch: Batch, a: Attempt)
    requires SpoolInv(s, disk) && FreshName(disk, a)
    ensures SpoolInv(Write(s, disk, batch, a).spool, Write(s, disk, batch, a).disk)
  {
    hide Pack, Size, Total, Flat, Holds, Spool.Enlist, Spool.Visible, Put;
    CloseKeepsList(s);
    var c := if s.open.Some? && s.openSize + Size(batch) > s.maxSize then s.Close() else s;
    if s.count >= s.maxCount && s.openSize + Size(batch) > s.maxSize {
    } else {
      assert SpoolInv(c, disk);
      if c.open.Some? {
        PutKeeps(c, disk, batch, a.written);
      } else if a.created {
        EnlistKeeps(c, disk, a.name);
        PutKeeps(c.Enlist(a.name), disk[a.name := []], batch, a.written);
      }
    }
  }

  lemma EnlistKeeps(s: Spool, disk: Disk, name: Name)
    requires SpoolInv(s, disk) && s.open.None? && name !in disk && GoodName(name) && |name| <= NAME_MAX
    ensures SpoolInv(s.Enlist(name), disk[name := []])
    ensures s.Enlist(name).open == Some(name)
  {
    hide Pack, Size, Flat, Holds;
    EnlistKeepsList(s, name);
    VisibleIsListed(s.Enlist(name));
    assert s.Enlist(name).openSize == 0;
    assert s.Enlist(name).listed[..|s.listed|] == s.listed;
    assert s.Enlist(name).maxSize == s.maxSize;
  }

  lemma DetachKeeps(s: Spool, disk: Disk)
    requires SpoolInv(s, disk)
    ensures SpoolInv(s.Detach(), disk)
  {
    hide Pack, Size, Total, Flat, Holds;
  }

  lemma ResetList(s: Spool)
    requires ListInv(s) && s.open.Some? && s.listed != [] && s.listed[|s.listed| - 1] == s.open.value
    ensures ListInv(s.Reset())
    ensures s.Reset().listed == s.listed[..|s.listed| - 1]
    ensures s.Reset().Visible() == if |s.listed| == 1 then s.listed else s.listed[..|s.listed| - 1]
  {
    hide Pack, Holds, Names.Walk, Names.Forward, StrLen, Spool.Reset, Capacity;
    var last := s.listed[|s.listed| - 1];
    var front := s.listed[..|s.listed| - 1];
    Unlist(s.names.value, s.listed);
    assert front + [last] == s.listed;
    PackSnoc(front, last);
    assert forall n :: n in front ==> n in s.listed;
    ResetFields(s);
    HoldsRange(s.Reset().names.value, front);
  }

  lemma ResetFields(s: Spool)
    requires s.open.Some? && s.names.Some? && s.listed != []
    ensures s.Reset() == s.(count := if s.count > 0 then s.count - 1 else s.count,
                            names := Some(s.names.value.(len := s.names.value.len - (|s.open.value| + 1))),
                            open := None, openSize := 0, listed := s.listed[..|s.listed| - 1])
  {
  }

  lemma HoldsRange(m: Names, names: seq<Name>)
    requires Holds(m, names)
    ensures 0 <= m.len <= |m.data| && m.data != []
  {
  }

  /** Reset takes exactly the open file's name off the count and the length. When it was the only name
      its bytes stay behind and the sender's walk still sees it. */
  lemma ResetKeeps(s: Spool, disk: Disk)
    requires SpoolInv(s, disk)
    ensures SpoolInv(s.Reset(), disk)
    ensures s.open.Some? ==> s.Reset().listed == s.listed[..|s.listed| - 1] && s.Reset().count == s.count - 1
    ensures s.open.Some? ==> s.Reset().Visible() == if |s.listed| == 1 then s.listed else s.listed[..|s.listed| - 1]
    ensures s.open.Some? ==> s.names.Some? && s.Reset().names.Some?
    ensures s.open.Some? ==> s.Reset().names.value.len == s.names.value.len - (|s.open.value| + 1)
    ensures s.open.None? ==> s.Reset() == s
  {
    hide Pack, Size, Total, Flat, Holds, Names.Walk, Spool.Visible;
    if s.open.Some? {
      ResetList(s);
      assert forall n :: n in s.Reset().listed ==> n in s.listed;
    }
  }

  // ----- What the spooled files say -----

  function Text(s: Spool, disk: Disk): Batch { TextOfFiles(disk, s.Visible()) }

  lemma {:induction false} TextFrame(disk: Disk, disk': Disk, names: seq<Name>)
    requires forall n :: n in names ==> (n in disk <==> n in disk') && (n in disk ==> disk'[n] == disk[n])
    ensures TextOfFiles(disk', names) == TextOfFiles(disk, names)
  {
    if names != [] {
      var front := names[..|names| - 1];
      assert forall n :: n in front ==> n in names;
      TextFrame(disk, disk', front);
      assert names[|names| - 1] in names;
    }
  }

  lemma TextSnoc(disk: Disk, names: seq<Name>, n: Name)
    ensures TextOfFiles(disk, names + [n]) == TextOfFiles(disk, names) + if n in disk then Flat(disk[n]) else []
  {
    assert (names + [n])[..|names|] == names;
  }

  lemma TextNil(disk: Disk)
    ensures TextOfFiles(disk, []) == []
  {
  }

  /** Writing to the open file, the last one listed, adds to the end of the text. */
  lemma PutText(s: Spool, disk: Disk, batch: Batch)
    requires SpoolInv(s, disk) && s.open.Some?
    ensures Put(s, disk, batch, true).ok
    ensures Text(Put(s, disk, batch, true).spool, Put(s, disk, batch, true).disk) == Text(s, disk) + batch
  {
    hide Pack, Size, Total, Flat, Holds, TextOfFiles, Spool.Visible;
    var n, front := s.open.value, s.listed[..|s.listed| - 1];
    var p := Put(s, disk, batch, true);
    VisibleIsListed(s);
    SameVisible(s, p.spool);
    assert s.listed == front + [n];
    TextSnoc(disk, front, n);
    TextSnoc(p.disk, front, n);
    TextFrame(disk, p.disk, front);
    TotalSnoc(disk[n], batch);
  }

  /** Listing a new empty file leaves the text alone, except that it overwrites a name left behind. */
  lemma EnlistText(s: Spool, disk: Disk, name: Name)
    requires SpoolInv(s, disk) && s.open.None? && name !in disk && GoodName(name) && |name| <= NAME_MAX
    ensures s.listed != [] ==> Text(s.Enlist(name), disk[name := []]) == Text(s, disk)
    ensures s.listed == [] ==> Text(s.Enlist(name), disk[name := []]) == []
  {
    hide Pack, Size, Total, Holds, TextOfFiles, Spool.Visible, Spool.Enlist;
    var disk' := disk[name := []];
    EnlistKeepsList(s, name);
    VisibleIsListed(s.Enlist(name));
    VisibleIsListed(s);
    TextSnoc(disk', s.listed, name);
    assert name !in s.listed;
    TextFrame(disk, disk', s.listed);
    TextNil(disk');
    assert disk'[name] == [];
  }

  /** A successful write puts the message at the end of the spooled text; only a text that stood for a
      name left behind by a reset disappears. */
  lemma WriteText(s: Spool, disk: Disk, batch: Batch, a: Attempt)
    requires SpoolInv(s, disk) && FreshName(disk, a) && Write(s, disk, batch, a).ok
    ensures var w := Write(s, disk, batch, a);
      Text(w.spool, w.disk) == Text(s, disk) + batch || (s.listed == [] && Text(w.spool, w.disk) == batch)
  {
    hide Pack, Size, Total, Flat, Holds, TextOfFiles, Spool.Visible, Spool.Enlist;
    CloseKeepsList(s);
    var c := if s.open.Some? && s.openSize + Size(batch) > s.maxSize then s.Close() else s;
    SameVisible(s, c);
    assert SpoolInv(c, disk);
    if c.open.Some? {
      PutText(c, disk, batch);
    } else {
      EnlistKeeps(c, disk, a.name);
      EnlistText(c, disk, a.name);
      PutText(c.Enlist(a.name), disk[a.name := []], batch);
      assert [] + batch == batch;
    }
  }

  /** The message goes to the open file if it fits there. */
  predicate FitsOpen(s: Spool, batch: Batch) { s.open.Some? && s.openSize + Size(batch) <= s.maxSize }

  /** A write succeeds exactly when the file system takes it, and the message fits the open file or
      another file may be made and is. */
  lemma WriteSucceedsExactly(s: Spool, disk: Disk, batch: Batch, a: Attempt)
    requires SpoolInv(s, disk)
    ensures Write(s, disk, batch, a).ok <==>
      a.written && (FitsOpen(s, batch) || (s.count < s.maxCount && a.created))
  {
    hide Pack, Size, Total, Holds, Spool.Visible, ListInv, Spool.Enlist;
    OpenOnDisk(s, disk);
    EnlistCounts(s, a.name);
    EnlistCounts(s.Close(), a.name);
  }

  /** Where a successful write goes: to the open file when the message fits it, and else to a new one,
      listed after the others and left open. No other file changes. */
  lemma WriteGoesTo(s: Spool, disk: Disk, batch: Batch, a: Attempt)
    requires SpoolInv(s, disk) && FreshName(disk, a) && Write(s, disk, batch, a).ok
    ensures var w := Write(s, disk, batch, a);
      if FitsOpen(s, batch) then
        && s.open.value in disk && w.disk == disk[s.open.value := disk[s.open.value] + [batch]]
        && w.spool.open == s.open && w.spool.count == s.count && w.spool.listed == s.listed
      else
        && w.disk == disk[a.name := [batch]]
        && w.spool.open == Some(a.name) && w.spool.count == s.count + 1 && w.spool.listed == s.listed + [a.name]
  {
    hide Pack, Size, Total, Holds, Spool.Visible, ListInv, Spool.Enlist;
    OpenOnDisk(s, disk);
    EnlistCounts(s, a.name);
    EnlistCounts(s.Close(), a.name);
    var none: seq<Batch> := [];
    assert none + [batch] == [batch];
    assert disk[a.name := none][a.name := [batch]] == disk[a.name := [batch]];
  }

  /** A failed write puts no message anywhere; at most a new file stays behind, empty, open and listed. */
  lemma WriteFailsCleanly(s: Spool, disk: Disk, batch: Batch, a: Attempt)
    requires SpoolInv(s, disk) && FreshName(disk, a) && !Write(s, disk, batch, a).ok
    ensures var w := Write(s, disk, batch, a);
      if a.created && !FitsOpen(s, batch) && s.count < s.maxCount then
        && w.disk == disk[a.name := []] && w.spool.open == Some(a.name) && w.spool.listed == s.listed + [a.name]
      else
        && w.disk == disk && w.spool.listed == s.listed
        && w.spool.open == if FitsOpen(s, batch) || s.count == s.maxCount then s.open else None
  {
    hide Pack, Size, Total, Holds, Spool.Visible, ListInv, Spool.Enlist;
    OpenOnDisk(s, disk);
    EnlistCounts(s, a.name);
    EnlistCounts(s.Close(), a.name);
  }

  lemma ResetText(s: Spool, disk: Disk)
    requires SpoolInv(s, disk)
    ensures Text(s.Reset(), disk) <= Text(s, disk)
  {
    hide Pack, Size, Total, Flat, Holds, TextOfFiles, Spool.Visible, Spool.Reset;
    ResetKeeps(s, disk);
    VisibleIsListed(s);
    if s.open.Some? {
      var front := s.listed[..|s.listed| - 1];
      assert s.listed == front + [s.open.value];
      TextSnoc(disk, front, s.open.value);
    }
  }

  /** A failed write followed by the reset leaves a prefix of the spooled text: at most the last file
      is given up. */
  lemma FailText(s: Spool, disk: Disk, batch: Batch, a: Attempt)
    requires SpoolInv(s, disk) && FreshName(disk, a) && !Write(s, disk, batch, a).ok
    ensures var w := Write(s, disk, batch, a);
      Text(w.spool.Reset(), w.disk) <= Text(s, disk)
  {
    hide Pack, Size, Total, Flat, Holds, TextOfFiles, Spool.Visible, Spool.Enlist, Spool.Reset;
    CloseKeepsList(s);
    var c := if s.open.Some? && s.openSize + Size(batch) > s.maxSize then s.Close() else s;
    SameVisible(s, c);
    var w := Write(s, disk, batch, a);
    if s.count >= s.maxCount && s.openSize + Size(batch) > s.maxSize {
      ResetText(s, disk);
    } else {
      assert SpoolInv(c, disk);
      if c.open.Some? || !a.created {
        ResetText(c, disk);
      } else {
        EnlistKeeps(c, disk, a.name);
        EnlistText(c, disk, a.name);
        ResetText(c.Enlist(a.name), w.disk);
      }
    }
  }

  /** A write touches the open file or a new one, and no other. */
  lemma WriteTouches(s: Spool, disk: Disk, batch: Batch, a: Attempt)
    requires SpoolInv(s, disk) && FreshName(disk, a)
    ensures var w := Write(s, disk, batch, a);
      && (forall n :: n in disk ==> n in w.disk && (s.open != Some(n) ==> w.disk[n] == disk[n]))
      && (w.spool.open == s.open || w.spool.open == Some(a.name) || w.spool.open.None?)
      && w.spool.maxCount == s.maxCount && w.spool.maxSize == s.maxSize
  {
    hide Pack, Size, Total, Flat, Holds, Spool.Enlist, Spool.Visible, ListInv;
    EnlistTouches(s.Close(), a.name);
    EnlistTouches(s, a.name);
  }

  lemma EnlistTouches(s: Spool, name: Name)
    ensures s.Enlist(name).open == Some(name) && s.Enlist(name).maxCount == s.maxCount && s.Enlist(name).maxSize == s.maxSize
  {
  }

  /** Where a created file has a name that was used before, its old text comes along: a successful
      write of a non-empty message puts it exactly at the end of the listed text if and only if it went
      to the open file, or to a new file, or to one that was empty and is not listed already. */
  lemma WriteTextExactly(s: Spool, disk: Disk, batch: Batch, a: Attempt)
    requires SpoolInv(s, disk) && GoodName(a.name) && |a.name| <= NAME_MAX && batch != []
    requires Write(s, disk, batch, a).ok
    ensures var w := Write(s, disk, batch, a);
      (Text(w.spool, w.disk) == TextOfFiles(disk, s.listed) + batch <==>
        || (s.open.Some? && s.openSize + Size(batch) <= s.maxSize)
        || a.name !in disk
        || (Flat(disk[a.name]) == [] && a.name !in s.listed))
  {
    hide Pack, Size, Total, Flat, Holds, TextOfFiles, Spool.Visible, Spool.Enlist;
    CloseKeepsList(s);
    OpenOnDisk(s, disk);
    var c := if s.open.Some? && s.openSize + Size(batch) > s.maxSize then s.Close() else s;
    if c.open.Some? {
      PutText(c, disk, batch);
      VisibleIsListed(s);
    } else {
      var made := if a.name in disk then disk else disk[a.name := []];
      var w := Write(s, disk, batch, a);
      EnlistKeepsList(c, a.name);
      VisibleIsListed(c.Enlist(a.name));
      SameVisible(c.Enlist(a.name), w.spool);
      TotalSnoc(made[a.name], batch);
      assert w.disk == made[a.name := made[a.name] + [batch]];
      TextSnoc(w.disk, s.listed, a.name);
      FlatNil();
      assert a.name !in disk ==> Flat(made[a.name]) == [];
      assert a.name !in disk ==> Flat(w.disk[a.name]) == batch by { assert [] + batch == batch; }
      TextGrows(disk, w.disk, s.listed, a.name, batch);
      assert a.name !in disk ==> a.name !in s.listed by { ListedOnDisk(s, disk); }
      ConcatExactly(TextOfFiles(disk, s.listed), TextOfFiles(w.disk, s.listed), Flat(made[a.name]), batch);
    }
  }

  lemma FlatNil()
    ensures Flat([]) == []
  {
  }

  lemma ListedOnDisk(s: Spool, disk: Disk)
    requires SpoolInv(s, disk)
    ensures forall n :: n in s.listed ==> n in disk
  {
    hide ListInv, Total, Spool.Visible;
  }

  lemma ConcatExactly(x: Batch, y: Batch, had: Batch, batch: Batch)
    requires |x| <= |y| && (|x| == |y| ==> x == y)
    ensures y + (had + batch) == x + batch <==> had == [] && x == y
  {
    if y + (had + batch) == x + batch {
      assert |y| + |had| + |batch| == |x| + |batch|;
    }
    if had == [] && x == y {
      assert had + batch == batch;
    }
  }

  /** The text of a list grows exactly when the file written to is on the list. */
  lemma {:induction false} TextGrows(disk: Disk, disk': Disk, names: seq<Name>, n: Name, batch: Batch)
    requires n in disk' && batch != []
    requires forall m :: m in names && m != n ==> (m in disk <==> m in disk') && (m in disk ==> disk'[m] == disk[m])
    requires Flat(disk'[n]) == (if n in disk then Flat(disk[n]) else []) + batch
    ensures |TextOfFiles(disk, names)| <= |TextOfFiles(disk', names)|
    ensures n in names ==> |TextOfFiles(disk, names)| < |TextOfFiles(disk', names)|
    ensures n !in names ==> TextOfFiles(disk', names) == TextOfFiles(disk, names)
  {
    hide Flat;
    if names != [] {
      var front := names[..|names| - 1];
      assert forall m :: m in names <==> m in front || m == names[|names| - 1];
      TextGrows(disk, disk', front, n, batch);
    }
  }

  // ----- The file count over whole histories -----

  /** A call of the spool's functions. */
  datatype Call = CallWrite(batch: Batch, a: Attempt) | CallReset | CallDetach

  datatype Store = Store(spool: Spool, disk: Disk)

  function Perform(t: Store, call: Call): Store
  {
    match call
    case CallWrite(batch, a) => var w := Write(t.spool, t.disk, batch, a); Store(w.spool, w.disk)
    case CallReset => t.(spool := t.spool.Reset())
    case CallDetach => t.(spool := t.spool.Detach())
  }

  /** Any calls in any order on a new spool; messages are not empty. */
  ghost predicate History(stores: seq<Store>, calls: seq<Call>, maxCount: int, maxSize: int)
  {
    && |stores| == |calls| + 1
    && stores[0] == Store(Start(maxCount, maxSize), map[])
    && (forall i :: 0 <= i < |calls| ==> stores[i + 1] == Perform(stores[i], calls[i]))
    && (forall i :: 0 <= i < |calls| && calls[i].CallWrite? ==> Size(calls[i].batch) > 0)
  }

  ghost predicate CountBounded(maxCount: int, maxSize: int)
  {
    forall stores: seq<Store>, calls: seq<Call>, i: nat ::
      History(stores, calls, maxCount, maxSize) && i <= |calls| ==> stores[i].spool.count <= maxCount
  }

  /** What keeps the count: a closed spool has a place left; or the bound is 0, nothing fits and nothing
      was ever listed. It needs nothing of names and files. */
  predicate CountInv(s: Spool, maxCount: int, maxSize: int)
  {
    && s.maxCount == maxCount && s.maxSize == maxSize
    && if maxCount >= 1 then
         && 0 <= s.count <= maxCount
         && (s.open.Some? ==> s.count >= 1 && s.names.Some?)
         && (s.open.None? ==> s.count < maxCount && s.openSize == 0)
       else
         s.count == 0 && s.open.None? && s.names.None? && s.openSize == 0
  }

  lemma EnlistCounts(s: Spool, name: Name)
    ensures var q := s.Enlist(name);
      q.count == s.count + 1 && q.open == Some(name) && q.listed == s.listed + [name] && q.names.Some? && q.openSize == 0 && q.maxCount == s.maxCount && q.maxSize == s.maxSize
  {
  }

  lemma WriteKeepsCount(s: Spool, disk: Disk, batch: Batch, a: Attempt, maxCount: int, maxSize: int)
    requires CountInv(s, maxCount, maxSize) && (maxCount >= 1 || (maxCount == 0 && maxSize <= 0))
    requires Size(batch) > 0
    ensures CountInv(Write(s, disk, batch, a).spool, maxCount, maxSize)
  {
    hide Size, Spool.Enlist;
    EnlistCounts(s, a.name);
    EnlistCounts(s.Close(), a.name);
  }

  lemma PerformKeepsCount(t: Store, call: Call, maxCount: int, maxSize: int)
    requires CountInv(t.spool, maxCount, maxSize) && (maxCount >= 1 || (maxCount == 0 && maxSize <= 0))
    requires call.CallWrite? ==> Size(call.batch) > 0
    ensures CountInv(Perform(t, call).spool, maxCount, maxSize)
  {
    hide Size, Write;
    if call.CallWrite? {
      WriteKeepsCount(t.spool, t.disk, call.batch, call.a, maxCount, maxSize);
    }
  }

  lemma {:induction false} CountHolds(stores: seq<Store>, calls: seq<Call>, i: nat, maxCount: int, maxSize: int)
    requires History(stores, calls, maxCount, maxSize) && i <= |calls|
    requires maxCount >= 1 || (maxCount == 0 && maxSize <= 0)
    ensures i < |stores| && CountInv(stores[i].spool, maxCount, maxSize)
  {
    hide Perform;
    if i > 0 {
      CountHolds(stores, calls, i - 1, maxCount, maxSize);
      PerformKeepsCount(stores[i - 1], calls[i - 1], maxCount, maxSize);
    }
  }

  /** Without room for any file the first message breaks the bound, or the empty spool does. */
  lemma CountBreaks(maxCount: int, maxSize: int) returns (stores: seq<Store>, calls: seq<Call>)
    requires maxCount < 0 || (maxCount == 0 && maxSize > 0)
    ensures History(stores, calls, maxCount, maxSize)
    ensures |calls| < |stores| && stores[|calls|].spool.count > maxCount
  {
    hide Names.Append, Blank;
    var first := Store(Start(maxCount, maxSize), map[]);
    if maxCount < 0 {
      stores, calls := [first], [];
    } else {
      var call := CallWrite([Chunk(0, 1)], Attempt([1], true, true));
      assert [Chunk(0, 1)] == [] + [Chunk(0, 1)];
      assert Size(call.batch) == 1;
      assert Perform(first, call).spool.count == 1;
      stores, calls := [first, Perform(first, call)], [call];
    }
  }

  /** The count stays within the configured bound, over every sequence of writes, resets and detaches,
      whatever names and failures occur, if and only if the bound is at least one, or is zero and
      nothing fits any file: the refusal asks for a full count and a full file both. */
  lemma CountBoundNeedsOne(maxCount: int, maxSize: int)
    ensures CountBounded(maxCount, maxSize) <==> maxCount >= 1 || (maxCount == 0 && maxSize <= 0)
  {
    hide History;
    if maxCount >= 1 || (maxCount == 0 && maxSize <= 0) {
      forall stores: seq<Store>, calls: seq<Call>, i: nat | History(stores, calls, maxCount, maxSize) && i <= |calls|
        ensures i < |stores| && stores[i].spool.count <= maxCount
      {
        CountHolds(stores, calls, i, maxCount, maxSize);
      }
    } else {
      var stores, calls := CountBreaks(maxCount, maxSize);
      assert stores[|calls|].spool.count > maxCount;
    }
  }
}
