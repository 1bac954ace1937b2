/** The receiver's spool as the program keeps it: a record and a packed name list updated in place. */
module DataFile {
  import opened Bytes
  import opened NameList
  import opened Wrappers
  import opened Spooling

  /** A message that holds file names; `data` is its zeroed allocation. */
  class NamesMessage {
    const data: array<byte>
    var len: int

    ghost function View(): Names
      reads this, data
    {
      Names(data[..], len)
    }

    constructor (cap: nat)
      ensures View() == Blank(cap) && fresh(data)
    {
      data := new byte[cap](i => 0);
      len := 0;
      new;
      assert data[..] == Blank(cap).data;
    }

    /** strlen of the data. */
    method DataLen() returns (n: nat)
      ensures n == StrLen(data[..]) && n <= data.Length
    {
      n := 0;
      while n < data.Length && data[n] != 0
        invariant 0 <= n <= data.Length
        invariant forall i :: 0 <= i < n ==> data[i] != 0
      {
        n := n + 1;
      }
      StrLenIs(data[..], n);
    }

    /** strcpy at `len`, then the new `len`. */
    method Append(name: Name)
      requires View().Fits(name)
      modifies this`len, data
      ensures View() == old(View()).Append(name)
    {
      forall i | 0 <= i <= |name| {
        data[len + i] := if i < |name| then name[i] else 0;
      }
      len := len + |name| + 1;
    }

    /** memmove of `count` bytes from offset `from` to the front. */
    method MoveDown(from: nat, count: nat)
      requires from + count <= data.Length
      modifies data
      ensures data[..] == old(data[from..from + count]) + old(data[count..])
    {
      forall i | 0 <= i < count {
        data[i] := data[i + from];
      }
    }

    /** messge_filename_forward: an overlapping move of the rest of the list, or the emptying. */
    method Forward()
      requires 0 <= len <= data.Length && data.Length > 0
      modifies this`len, data
      ensures View() == old(View()).Forward()
    {
      hide StrLen;
      var n := DataLen();
      if len > n + 1 {
        MoveDown(n + 1, len - n - 1);
        len := len - n - 1;
      } else {
        len := 0;
        data[0] := 0;
      }
    }

    /** The sender's loop over the list, handing each name to the output. */
    method SendAll() returns (sent: seq<Name>)
      requires 0 <= len <= data.Length && data.Length > 0
      modifies this`len, data
      ensures sent == old(View()).Walk()
      ensures data[0] == 0
    {
      hide StrLen, Names.Walk, Names.Forward;
      sent := [];
      ghost var all := View().Walk();
      while data[0] != 0
        invariant 0 <= len <= data.Length
        invariant all == sent + View().Walk()
        decreases len, if data[0] != 0 then 1 else 0
      {
        var n := DataLen();
        WalkStep(View());
        sent := sent + [data[..n]];
        Forward();
      }
      WalkEnd(View());
    }
  }

  lemma WalkStep(m: Names)
    requires 0 <= m.len <= |m.data| && m.data != [] && m.data[0] != 0
    ensures m.Walk() == [m.data[..StrLen(m.data)]] + m.Forward().Walk()
    ensures m.Forward().len < m.len || (m.Forward().len <= m.len && m.Forward().data[0] == 0)
  {
  }

  lemma WalkEnd(m: Names)
    requires 0 <= m.len <= |m.data| && m.data != [] && m.data[0] == 0
    ensures m.Walk() == []
  {
  }

  lemma {:induction false} StrLenIs(b: seq<byte>, n: nat)
    requires n <= |b| && (forall i :: 0 <= i < n ==> b[i] != 0) && (n < |b| ==> b[n] == 0)
    ensures StrLen(b) == n
  {
    hide StrLen;
    if StrLen(b) < n {
      assert false;
    }
  }

  class DataFileInfo {
    const maxCount: int
    const maxSize: int
    var count: int
    var names: NamesMessage?
    var open: Option<Name>
    var openSize: int
    var disk: Disk
    ghost var listed: seq<Name>
    ghost var overrun: bool

    ghost function View(): Spool
      reads this, names, if names != null then {names.data} else {}
    {
      Spool(maxCount, maxSize, count, if names != null then Some(names.View()) else None, open, openSize, listed, overrun)
    }

    constructor (maxCount: int, maxSize: int)
      ensures View() == Start(maxCount, maxSize) && disk == map[]
    {
      this.maxCount, this.maxSize := maxCount, maxSize;
      count, names, open, openSize, disk, listed, overrun := 0, null, None, 0, map[], [], false;
    }

    method Close()
      modifies this`open, this`openSize
      ensures View() == old(View()).Close()
    {
      open := None;
      openSize := 0;
    }

    method Reset()
      requires SpoolInv(View(), disk)
      modifies this, if names != null then {names} else {}
      ensures View() == old(View()).Reset() && disk == old(disk)
    {
      hide SpoolInv, ListInv, Holds, Pack;
      OpenOnDisk(View(), disk);
      if open.Some? {
        if count > 0 {
          count := count - 1;
        }
        names.len := names.len - (|open.value| + 1);
        listed := if listed != [] then listed[..|listed| - 1] else [];
      }
      Close();
    }

    method Detach()
      modifies this
      ensures View() == old(View()).Detach() && disk == old(disk)
    {
      Close();
      count := 0;
      names := null;
      listed := [];
    }

    /** Create the file the attempt names and put it on the list. */
    method Create(name: Name)
      requires SpoolInv(View(), disk) && open.None? && FreshName(disk, Attempt(name, true, true))
      modifies this, if names != null then {names, names.data} else {}
      ensures View() == old(View()).Enlist(name) && disk == old(disk)[name := []]
      ensures SpoolInv(View(), disk) && names != null && open == Some(name)
    {
      hide SpoolInv, ListInv, Holds, Pack, Capacity, Names.Fits, Names.Append, SeenBySender;
      ghost var s := View();
      OpenOnDisk(s, disk);
      EnlistKeeps(s, disk, name);
      EnlistFits(s, name);
      disk := disk[name := []];
      count := count + 1;
      openSize := 0;
      open := Some(name);
      if names == null {
        var cap := (maxCount + 1) * NAME_ROOM;
        names := new NamesMessage(cap);
      }
      listed := listed + [name];
      names.Append(name);
    }

    /** datafile_write_datamsg. */
    method WriteMessage(batch: Batch, a: Attempt) returns (ok: bool)
      requires SpoolInv(View(), disk) && FreshName(disk, a)
      modifies this, if names != null then {names, names.data} else {}
      ensures var w := Write(old(View()), old(disk), batch, a);
        View() == w.spool && disk == w.disk && ok == w.ok
      ensures SpoolInv(View(), disk)
    {
      hide SpoolInv, ListInv, Spool.Enlist;
      ghost var s, d := View(), disk;
      WriteKeeps(s, d, batch, a);
      OpenOnDisk(s, d);
      var len := Size(batch);
      if count >= maxCount && openSize + len > maxSize {
        return false;
      }
      if open.Some? && openSize + len > maxSize {
        CloseKeeps(s, d);
        Close();
      }
      if open.None? {
        if !a.created {
          return false;
        }
        Create(a.name);
      }
      if !a.written {
        return false;
      }
      disk := disk[open.value := disk[open.value] + [batch]];
      openSize := openSize + len;
      ok := true;
    }
  }
}
