/** Which archives a log has, and the pass that finds the oldest of them. */
module Retention {

  datatype File = File(inode: nat, mtime: int)
  type Dir = map<string, File>

  const NAME_BUFFER: nat := 128

  predicate OccursAt(name: string, part: string, i: int)
  {
    0 <= i <= |name| - |part| && name[i..i + |part|] == part
  }

  /** strstr finds the suffix somewhere in the name. */
  predicate Contains(name: string, part: string)
  {
    exists i :: 0 <= i <= |name| - |part| && OccursAt(name, part, i)
  }

  /** An archive of the log: the suffix occurs in the name, and the name starts with the log's name
      and a dash. */
  predicate Match(name: string, logname: string, suffix: string)
  {
    Contains(name, suffix) && logname + "-" <= name
  }

  /** The name has the suffix in it, with anything before and after. */
  ghost predicate Holds(name: string, part: string) { exists x: string, y: string :: name == x + part + y }

  /** The name goes on after the prefix. */
  ghost predicate StartsWith(name: string, prefix: string) { exists rest: string :: name == prefix + rest }

  /** Archives are exactly the names of the form log name, dash, anything, that have the suffix in them. */
  lemma MatchExactly(name: string, logname: string, suffix: string)
    ensures Match(name, logname, suffix) <==> StartsWith(name, logname + "-") && Holds(name, suffix)
  {
    var dash := logname + "-";
    if Match(name, logname, suffix) {
      assert name == dash + name[|dash|..];
      var i :| 0 <= i <= |name| - |suffix| && OccursAt(name, suffix, i);
      assert name == name[..i] + suffix + name[i + |suffix|..];
    }
    if StartsWith(name, dash) && Holds(name, suffix) {
      var x: string, y: string :| name == x + suffix + y;
      assert name[|x|..|x| + |suffix|] == suffix;
      assert OccursAt(name, suffix, |x|);
    }
  }

  ghost function Archives(dir: Dir, logname: string, suffix: string): set<string>
  {
    set n | n in dir && Match(n, logname, suffix)
  }

  // ----- The oldest-file pass -----

  datatype Entry = Entry(name: string, mtime: int)
  datatype Oldest = Oldest(name: string, mtime: int)

  /** What the callback keeps after seeing one more archive; 0 means nothing kept yet. */
  function Visit(o: Oldest, e: Entry): Oldest
  {
    if o.mtime == 0 || o.mtime > e.mtime then Oldest(e.name, e.mtime) else o
  }

  function Scan(es: seq<Entry>): Oldest
  {
    if es == [] then Oldest("", 0) else Visit(Scan(es[..|es| - 1]), es[|es| - 1])
  }

  lemma ScanSnoc(es: seq<Entry>, e: Entry)
    ensures Scan(es + [e]) == Visit(Scan(es), e)
  {
    assert (es + [e])[..|es|] == es;
  }

  /** The entry the scan ends with is one of those it saw and no other is older. */
  ghost predicate PicksOldest(es: seq<Entry>)
  {
    var o := Scan(es);
    Entry(o.name, o.mtime) in es && forall e :: e in es ==> o.mtime <= e.mtime
  }

  ghost predicate SomeNegative(es: seq<Entry>) { exists e :: e in es && e.mtime < 0 }
  ghost predicate AllPositive(es: seq<Entry>) { forall e :: e in es ==> e.mtime > 0 }

  /** What the scan ends with, by the times it met. */
  lemma {:induction false} ScanFacts(es: seq<Entry>)
    requires es != []
    ensures Entry(Scan(es).name, Scan(es).mtime) in es
    ensures SomeNegative(es) ==> Scan(es).mtime < 0
    ensures !SomeNegative(es) ==> (Scan(es).mtime == 0 <==> es[|es| - 1].mtime == 0)
    ensures SomeNegative(es) || AllPositive(es) ==> forall e :: e in es ==> Scan(es).mtime <= e.mtime
  {
    hide Scan;
    var front, last := es[..|es| - 1], es[|es| - 1];
    assert es == front + [last];
    assert forall e :: e in es <==> e in front || e == last;
    ScanSnoc(front, last);
    if front != [] {
      ScanFacts(front);
    } else {
      ScanNil();
    }
  }

  lemma ScanNil()
    ensures Scan([]) == Oldest("", 0)
  {
  }

  /** Using 0 for "nothing yet" costs exactly the following: the scan ends with an oldest entry if and
      only if some time is negative, or none is 0, or the last one listed is 0. */
  lemma ScanPicksOldestExactly(es: seq<Entry>)
    requires es != []
    ensures PicksOldest(es) <==> SomeNegative(es) || AllPositive(es) || es[|es| - 1].mtime == 0
  {
    hide Scan;
    ScanFacts(es);
    if !SomeNegative(es) && !AllPositive(es) {
      var z :| z in es && z.mtime <= 0;
      assert z.mtime == 0;
      assert PicksOldest(es) <==> Scan(es).mtime == 0;
    }
  }

  /** Of several oldest entries the scan keeps the one listed first. */
  lemma {:induction false} ScanKeepsFirst(es: seq<Entry>) returns (k: nat)
    requires es != [] && (SomeNegative(es) || AllPositive(es))
    ensures k < |es| && es[k] == Entry(Scan(es).name, Scan(es).mtime)
    ensures forall j :: 0 <= j < k ==> es[j].mtime > es[k].mtime
  {
    hide Scan;
    var front, last := es[..|es| - 1], es[|es| - 1];
    assert es == front + [last];
    assert forall e :: e in es <==> e in front || e == last;
    ScanSnoc(front, last);
    k := |front|;
    if front == [] {
      ScanNil();
    } else {
      ScanFacts(front);
      if SomeNegative(front) || AllPositive(front) {
        assert forall j :: 0 <= j < |front| ==> front[j] in front;
        var m := ScanKeepsFirst(front);
        if Scan(es) == Scan(front) {
          k := m;
        }
      } else {
        assert forall j :: 0 <= j < |front| ==> front[j] in front;
      }
    }
  }

  /** The name as the 128-byte buffer holds it. */
  function Truncated(name: string): string { if |name| < NAME_BUFFER then name else name[..NAME_BUFFER - 1] }

  /** The deletion removes exactly the file the pass picked if and only if its name fits the buffer. */
  lemma DeletesPickedExactly(dir: Dir, name: string)
    requires name in dir
    ensures dir - {Truncated(name)} == dir - {name} <==> |name| < NAME_BUFFER
  {
    if |name| >= NAME_BUFFER {
      assert name in dir - {Truncated(name)};
      assert name !in dir - {name};
    }
  }

  /** No archive has a time before `t`. */
  ghost predicate NoneOlder(dir: Dir, t: int, logname: string, suffix: string)
  {
    forall n :: n in Archives(dir, logname, suffix) ==> t <= dir[n].mtime
  }

  /** Archives whose names fit the buffer. */
  ghost predicate ShortNames(dir: Dir, logname: string, suffix: string)
  {
    forall n :: n in Archives(dir, logname, suffix) ==> |n| < NAME_BUFFER
  }

  /** No archive has the time that stands for nothing kept yet. */
  ghost predicate NoneZero(dir: Dir, logname: string, suffix: string)
  {
    forall n :: n in Archives(dir, logname, suffix) ==> dir[n].mtime != 0
  }

  /** Some archives are gone; everything else is as it was. */
  ghost predicate OnlyArchivesGone(before: Dir, after: Dir, logname: string, suffix: string)
  {
    && after.Keys <= before.Keys
    && (forall n :: n in after ==> after[n] == before[n])
    && (forall n :: n in before && !Match(n, logname, suffix) ==> n in after)
  }

  /** None of the archives that are gone was newer than one that stayed. */
  ghost predicate KeptNewest(before: Dir, after: Dir, logname: string, suffix: string)
  {
    && OnlyArchivesGone(before, after, logname, suffix)
    && (forall r, k :: r in before && r !in after && k in Archives(after, logname, suffix) ==> before[r].mtime <= before[k].mtime)
  }

  lemma KeptRefl(dir: Dir, logname: string, suffix: string)
    ensures KeptNewest(dir, dir, logname, suffix)
  {
  }

  lemma KeptOnly(before: Dir, after: Dir, logname: string, suffix: string)
    requires KeptNewest(before, after, logname, suffix)
    ensures OnlyArchivesGone(before, after, logname, suffix)
  {
  }

  /** Deleting one archive takes one from their number and nothing else. */
  lemma DropOne(before: Dir, mid: Dir, name: string, logname: string, suffix: string)
    requires OnlyArchivesGone(before, mid, logname, suffix) && name in Archives(mid, logname, suffix)
    ensures OnlyArchivesGone(before, mid - {name}, logname, suffix)
    ensures Archives(mid - {name}, logname, suffix) == Archives(mid, logname, suffix) - {name}
    ensures |Archives(mid - {name}, logname, suffix)| == |Archives(mid, logname, suffix)| - 1
  {
    hide Match;
    assert Archives(mid - {name}, logname, suffix) == Archives(mid, logname, suffix) - {name};
  }

  /** Deleting an oldest archive of what is left keeps the newest. */
  lemma DropOldest(before: Dir, mid: Dir, name: string, logname: string, suffix: string)
    requires KeptNewest(before, mid, logname, suffix)
    requires name in Archives(mid, logname, suffix)
    requires NoneOlder(mid, mid[name].mtime, logname, suffix)
    ensures KeptNewest(before, mid - {name}, logname, suffix)
  {
    hide Match;
    var after := mid - {name};
    DropOne(before, mid, name, logname, suffix);
    forall r, k | r in before && r !in after && k in Archives(after, logname, suffix)
      ensures before[r].mtime <= before[k].mtime
    {
      assert k in Archives(mid, logname, suffix);
      if r == name {
        assert mid[name].mtime <= mid[k].mtime;
      } else {
        assert r !in mid;
      }
    }
  }
}
