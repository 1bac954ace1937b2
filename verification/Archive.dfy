/** Rotation without compression: the pending file, the fresh archive name, the retention of the
    newest archives. The file system is the directory map; its calls succeed when their file is there. */
module Archive {
  import opened Retention

  // ----- Candidate names -----

  function Digit(d: int): char
    requires 0 <= d < 10
  {
    '0' + d as char
  }

  /** %d of a non-negative number. */
  function Decimal(n: nat): (s: string)
    ensures s != []
  {
    if n < 10 then [Digit(n)] else Decimal(n / 10) + [Digit(n % 10)]
  }

  /** The number a string of digits stands for. */
  function Value(s: string): int
  {
    if s == "" then 0 else 10 * Value(s[..|s| - 1]) + (s[|s| - 1] as int - '0' as int)
  }

  lemma {:induction false} DecimalValue(n: nat)
    ensures Value(Decimal(n)) == n
    ensures forall k :: 0 <= k < |Decimal(n)| ==> '0' <= Decimal(n)[k] <= '9'
    ensures n > 0 ==> Decimal(n)[0] != '0'
  {
    if n < 10 {
      assert [Digit(n)][..0] == "";
    } else {
      DecimalValue(n / 10);
      assert Decimal(n)[..|Decimal(n)| - 1] == Decimal(n / 10);
    }
  }

  lemma DecimalInjective(m: nat, n: nat)
    requires Decimal(m) == Decimal(n)
    ensures m == n
  {
    DecimalValue(m);
    DecimalValue(n);
  }

  /** The i-th name tried: the plain one first, then numbered ones. */
  function Candidate(stem: string, suffix: string, i: nat): string
  {
    if i == 0 then stem + suffix else stem + "-" + Decimal(i) + suffix
  }

  lemma CandidateInjective(stem: string, suffix: string, i: nat, j: nat)
    requires Candidate(stem, suffix, i) == Candidate(stem, suffix, j)
    ensures i == j
  {
    var a, b := Candidate(stem, suffix, i), Candidate(stem, suffix, j);
    assert |a| == |stem| + |suffix| + if i == 0 then 0 else 1 + |Decimal(i)|;
    assert |b| == |stem| + |suffix| + if j == 0 then 0 else 1 + |Decimal(j)|;
    if i != 0 && j != 0 {
      assert a[|stem| + 1..|a| - |suffix|] == Decimal(i);
      assert b[|stem| + 1..|b| - |suffix|] == Decimal(j);
      DecimalInjective(i, j);
    }
  }

  /** The first name has no number, and the later ones have theirs after a dash and before the suffix. */
  lemma CandidateForm(stem: string, suffix: string, i: nat) returns (number: string)
    ensures i == 0 ==> Candidate(stem, suffix, i) == stem + suffix
    ensures i > 0 ==> Candidate(stem, suffix, i) == stem + "-" + number + suffix
    ensures Value(number) == i && (i > 0 ==> number[..1] != "0")
    ensures forall k :: 0 <= k < |number| ==> '0' <= number[k] <= '9'
  {
    number := Decimal(i);
    DecimalValue(i);
  }

  /** Every name a rotation can give is one that retention counts and deletes. */
  lemma CandidateMatches(logname: string, stamp: string, suffix: string, i: nat)
    ensures Match(Candidate(logname + "-" + stamp, suffix, i), logname, suffix)
  {
    var stem := logname + "-" + stamp;
    var number := if i == 0 then "" else "-" + Decimal(i);
    var c := Candidate(stem, suffix, i);
    assert c == stem + number + suffix + "";
    assert c == (logname + "-") + (stamp + number + suffix);
    assert Holds(c, suffix) && StartsWith(c, logname + "-");
    MatchExactly(c, logname, suffix);
  }

  /** The log itself and its pending file are no archives. */
  lemma OwnFilesDoNotMatch(logname: string, suffix: string)
    ensures !Match(logname, logname, suffix) && !Match(logname + ".pending", logname, suffix)
  {
    assert (logname + ".pending")[|logname|] == '.';
    assert (logname + "-")[|logname|] == '-';
  }

  /** Archiving a file that was none makes one archive more. */
  lemma OneArchiveMore(dir: Dir, from: string, to: string, logname: string, suffix: string)
    requires from in dir && to !in dir && !Match(from, logname, suffix) && Match(to, logname, suffix)
    ensures Archives(Moved(dir, from, to), logname, suffix) == Archives(dir, logname, suffix) + {to}
    ensures |Archives(Moved(dir, from, to), logname, suffix)| == |Archives(dir, logname, suffix)| + 1
  {
    hide Match;
    assert Archives(Moved(dir, from, to), logname, suffix) == Archives(dir, logname, suffix) + {to};
  }

  /** All names tried so far are taken. */
  ghost predicate Taken(dir: Dir, stem: string, suffix: string, i: nat)
  {
    forall k: nat :: k < i ==> Candidate(stem, suffix, k) in dir
  }

  /** A directory cannot hold more candidates than it has files: the probe ends. */
  lemma TakenBounded(dir: Dir, stem: string, suffix: string, i: nat)
    requires Taken(dir, stem, suffix, i)
    ensures i <= |dir|
  {
    hide Candidate;
    TriedAre(stem, suffix, i);
    var tried := Tried(stem, suffix, i);
    assert tried <= dir.Keys;
    Within(tried, dir.Keys);
  }

  ghost function Tried(stem: string, suffix: string, i: nat): set<string>
  {
    if i == 0 then {} else Tried(stem, suffix, i - 1) + {Candidate(stem, suffix, i - 1)}
  }

  lemma {:induction false} TriedAre(stem: string, suffix: string, i: nat)
    ensures |Tried(stem, suffix, i)| == i
    ensures forall n :: n in Tried(stem, suffix, i) ==> exists k: nat :: k < i && n == Candidate(stem, suffix, k)
  {
    hide Candidate;
    if i > 0 {
      TriedAre(stem, suffix, i - 1);
      var c := Candidate(stem, suffix, i - 1);
      if c in Tried(stem, suffix, i - 1) {
        var k: nat :| k < i - 1 && c == Candidate(stem, suffix, k);
        CandidateInjective(stem, suffix, i - 1, k);
      }
    }
  }

  lemma Within<T>(a: set<T>, b: set<T>)
    requires a <= b
    ensures |a| <= |b|
  {
    assert b == a + (b - a);
  }

  function Min(a: int, b: int): int { if a <= b then a else b }

  // ----- Moving files -----

  /** The directory after moving one file to a name. */
  function Moved(dir: Dir, from: string, to: string): Dir
    requires from in dir
  {
    (dir - {from})[to := dir[from]]
  }

  /** Moving to a name that is not taken keeps every file, and touches no other name. */
  lemma MoveConserves(dir: Dir, from: string, to: string)
    requires from in dir && (to !in dir || to == from)
    ensures Moved(dir, from, to).Values == dir.Values && |Moved(dir, from, to)| == |dir|
    ensures forall n :: n in dir && n != from ==> n in Moved(dir, from, to) && Moved(dir, from, to)[n] == dir[n]
  {
    var m := Moved(dir, from, to);
    forall f | f in dir.Values
      ensures f in m.Values
    {
      var n :| n in dir && dir[n] == f;
      assert m[if n == from then to else n] == f;
    }
    forall f | f in m.Values
      ensures f in dir.Values
    {
      var n :| n in m && m[n] == f;
      assert dir[if n == to then from else n] == f;
    }
    assert m.Keys == dir.Keys - {from} + {to};
  }

  function Pending(logname: string): string { logname + ".pending" }

  class LogDir {
    var dir: Dir
    const logname: string
    const suffix: string
    const logcount: int
    const stamp: int -> string  // the archive time in a name, from a modification time

    constructor (dir: Dir, logname: string, suffix: string, logcount: int, stamp: int -> string)
      ensures this.dir == dir && this.logname == logname && this.suffix == suffix
      ensures this.logcount == logcount && this.stamp == stamp
    {
      this.dir, this.logname, this.suffix, this.logcount, this.stamp := dir, logname, suffix, logcount, stamp;
    }

    /** Probe for an archive name that does not exist yet. */
    method FreshName(stem: string) returns (name: string, i: nat)
      ensures name == Candidate(stem, suffix, i) && name !in dir
      ensures Taken(dir, stem, suffix, i) && i <= |dir|
    {
      i := 0;
      name := stem + suffix;
      while name in dir
        invariant name == Candidate(stem, suffix, i) && Taken(dir, stem, suffix, i)
        invariant i <= |dir|
        decreases |dir| + 1 - i
      {
        i := i + 1;
        name := stem + "-" + Decimal(i) + suffix;
        TakenBounded(dir, stem, suffix, i);
      }
    }

    /** rename(2). */
    method Rename(from: string, to: string) returns (ok: bool)
      modifies this`dir
      ensures ok <==> from in old(dir)
      ensures dir == if ok then Moved(old(dir), from, to) else old(dir)
    {
      ok := from in dir;
      if ok {
        dir := Moved(dir, from, to);
      }
    }

    function Stem(mtime: int): string { logname + "-" + stamp(mtime) }

    /** Give a file its archive name. */
    method RenameLogfile(file: string) returns (ok: bool, ghost i: nat)
      modifies this`dir
      ensures ok <==> file in old(dir)
      ensures !ok ==> dir == old(dir)
      ensures ok ==> var to := Candidate(Stem(old(dir)[file].mtime), suffix, i);
        to !in old(dir) && dir == Moved(old(dir), file, to) && Taken(old(dir), Stem(old(dir)[file].mtime), suffix, i)
    {
      i := 0;
      if file !in dir {
        return false, 0;
      }
      var name;
      name, i := FreshName(Stem(dir[file].mtime));
      ok := Rename(file, name);
    }

    /** readdir, in whatever order it comes. */
    method List() returns (names: seq<string>)
      ensures forall n :: n in names <==> n in dir
      ensures forall i, j :: 0 <= i < j < |names| ==> names[i] != names[j]
    {
      names := [];
      var rest := dir.Keys;
      while rest != {}
        invariant rest <= dir.Keys
        invariant forall n :: n in names <==> n in dir && n !in rest
        invariant forall i, j :: 0 <= i < j < |names| ==> names[i] != names[j]
        decreases |rest|
      {
        var n :| n in rest;
        names := names + [n];
        rest := rest - {n};
      }
    }

    /** The counting pass. */
    method CountArchives() returns (count: nat)
      ensures count == |Archives(dir, logname, suffix)|
    {
      var names := List();
      count := 0;
      ghost var seen: set<string> := {};
      for i := 0 to |names|
        invariant seen == set n | n in names[..i] && Match(n, logname, suffix)
        invariant count == |seen|
      {
        assert names[..i + 1] == names[..i] + [names[i]];
        assert names[i] !in seen;
        if Match(names[i], logname, suffix) {
          seen := seen + {names[i]};
          count := count + 1;
        }
      }
      assert names[..|names|] == names;
      assert seen == Archives(dir, logname, suffix);
    }

    /** The oldest-file pass: it is the scan of the archives in listing order, so when no
        archive has time 0 it ends with an oldest one. */
    method FindOldest() returns (oldest: Oldest, ghost es: seq<Entry>)
      ensures oldest == Scan(es)
      ensures Archives(dir, logname, suffix) == {} ==> oldest == Oldest("", 0)
      ensures Archives(dir, logname, suffix) != {} ==>
        oldest.name in Archives(dir, logname, suffix) && oldest.mtime == dir[oldest.name].mtime
      ensures Archives(dir, logname, suffix) != {} ==>
        && es != []
        && (NoneOlder(dir, oldest.mtime, logname, suffix) <==>
            SomeNegative(es) || AllPositive(es) || es[|es| - 1].mtime == 0)
      ensures forall e :: e in es ==> e.name in Archives(dir, logname, suffix) && e.mtime == dir[e.name].mtime
      ensures forall n :: n in Archives(dir, logname, suffix) ==> Entry(n, dir[n].mtime) in es
    {
      hide Match;
      var names := List();
      oldest := Oldest("", 0);
      es := [];
      for i := 0 to |names|
        invariant oldest == Scan(es)
        invariant forall e :: e in es ==> e.name in Archives(dir, logname, suffix) && e.mtime == dir[e.name].mtime
        invariant forall n :: n in names[..i] && Match(n, logname, suffix) ==> Entry(n, dir[n].mtime) in es
      {
        var n := names[i];
        if Match(n, logname, suffix) {
          var e := Entry(n, dir[n].mtime);
          ScanSnoc(es, e);
          if oldest.mtime == 0 || oldest.mtime > e.mtime {
            oldest := Oldest(n, e.mtime);
          }
          es := es + [e];
        }
      }
      assert names[..|names|] == names;
      assert es != [] ==> es[0] in es && es[0].name in Archives(dir, logname, suffix);
      if Archives(dir, logname, suffix) != {} {
        var a :| a in Archives(dir, logname, suffix);
        assert Entry(a, dir[a].mtime) in es;
        ScanFacts(es);
        assert Entry(oldest.name, oldest.mtime) in es;
        ScanPicksOldestExactly(es);
        assert PicksOldest(es) <==> NoneOlder(dir, oldest.mtime, logname, suffix) by { hide Archives, Scan; }
      }
    }

    /** Find the oldest archive and unlink what its name buffer holds. An archive is always picked. It
        is the one that goes exactly when its name fits. It is an oldest one exactly when some time is
        negative, or none is 0, or the archive listed last has time 0. */
    method RemoveOldest() returns (ghost gone: string, ghost es: seq<Entry>)
      modifies this`dir
      ensures dir == old(dir) - {Truncated(gone)}
      ensures Archives(old(dir), logname, suffix) != {} ==>
        gone in Archives(old(dir), logname, suffix) &&
        (dir == old(dir) - {gone} <==> |gone| < NAME_BUFFER)
      ensures forall e :: e in es <==> e.name in Archives(old(dir), logname, suffix) && e.mtime == old(dir)[e.name].mtime
      ensures Archives(old(dir), logname, suffix) != {} ==>
        && es != []
        && (NoneOlder(old(dir), old(dir)[gone].mtime, logname, suffix) <==>
            SomeNegative(es) || AllPositive(es) || es[|es| - 1].mtime == 0)
    {
      hide Match;
      var oldest;
      oldest, es := FindOldest();
      gone := oldest.name;
      if Archives(dir, logname, suffix) != {} {
        DeletesPickedExactly(dir, gone);
      }
      dir := dir - {Truncated(oldest.name)};
    }

    /** Where no archive has time 0, a listing has a negative time or positive ones only. */
    lemma NoZeroListed(dir: Dir, es: seq<Entry>)
      requires NoneZero(dir, logname, suffix)
      requires forall e :: e in es ==> e.name in Archives(dir, logname, suffix) && e.mtime == dir[e.name].mtime
      ensures SomeNegative(es) || AllPositive(es)
    {
    }

    /** Retention: delete archives until `logcount` are left. When their names fit, min(n, logcount)
        stay and nothing else changes; when no time is 0 either, those are the newest. */
    method RemoveOld()
      requires logcount >= 1
      modifies this`dir
      ensures dir.Keys <= old(dir).Keys && forall n :: n in dir ==> dir[n] == old(dir)[n]
      ensures ShortNames(old(dir), logname, suffix) ==>
        OnlyArchivesGone(old(dir), dir, logname, suffix) &&
        |Archives(dir, logname, suffix)| == Min(|Archives(old(dir), logname, suffix)|, logcount)
      ensures ShortNames(old(dir), logname, suffix) && NoneZero(old(dir), logname, suffix) ==>
        KeptNewest(old(dir), dir, logname, suffix)
    {
      hide Match, KeptNewest, OnlyArchivesGone;
      ghost var before := dir;
      ghost var short := ShortNames(dir, logname, suffix);
      ghost var tame := short && NoneZero(dir, logname, suffix);
      KeptRefl(before, logname, suffix);
      KeptOnly(before, dir, logname, suffix);
      var n := CountArchives();
      var i := 0;
      while i < n - logcount
        invariant 0 <= i && (n > logcount ==> i <= n - logcount) && (n <= logcount ==> i == 0)
        invariant dir.Keys <= before.Keys && forall n :: n in dir ==> dir[n] == before[n]
        invariant short ==> ShortNames(dir, logname, suffix) && OnlyArchivesGone(before, dir, logname, suffix)
        invariant short ==> |Archives(dir, logname, suffix)| == n - i
        invariant tame ==> NoneZero(dir, logname, suffix) && KeptNewest(before, dir, logname, suffix)
      {
        ghost var mid := dir;
        ghost var gone, es := RemoveOldest();
        if short {
          assert Archives(mid, logname, suffix) != {};
          DropOne(before, mid, gone, logname, suffix);
          if tame {
            assert NoneOlder(mid, mid[gone].mtime, logname, suffix) by { NoZeroListed(mid, es); }
            DropOldest(before, mid, gone, logname, suffix);
          }
        }
        i := i + 1;
      }
    }

    /** A rotation: move the log to the pending name unless a pending file is left over, give the
        pending file a fresh archive name, then delete old archives. `mid` is the directory between
        the last two. A left-over pending file is archived first and the log stays where it is. */
    method ArchiveNoCompress() returns (ok: bool, ghost mid: Dir, ghost i: nat)
      requires logcount >= 1
      modifies this`dir
      ensures ok <==> logname in old(dir) || logname + ".pending" in old(dir)
      ensures !ok ==> dir == old(dir)
      ensures ok ==>
        var from := if logname + ".pending" in old(dir) then logname + ".pending" else logname;
        var to := Candidate(logname + "-" + stamp(old(dir)[from].mtime), suffix, i);
        && to !in old(dir) && mid == (old(dir) - {from})[to := old(dir)[from]]
        && mid.Values == old(dir).Values && |mid| == |old(dir)|
        && Archives(mid, logname, suffix) == Archives(old(dir), logname, suffix) + {to}
        && |Archives(mid, logname, suffix)| == |Archives(old(dir), logname, suffix)| + 1
      ensures ok ==> dir.Keys <= mid.Keys && forall n :: n in dir ==> dir[n] == mid[n]
      ensures ok && ShortNames(mid, logname, suffix) ==>
        OnlyArchivesGone(mid, dir, logname, suffix) &&
        |Archives(dir, logname, suffix)| == Min(|Archives(old(dir), logname, suffix)| + 1, logcount)
      ensures ok && ShortNames(mid, logname, suffix) && NoneZero(mid, logname, suffix) ==>
        KeptNewest(mid, dir, logname, suffix)
    {
      hide KeptNewest, OnlyArchivesGone, ShortNames, NoneZero, Archives, Taken, Match, Decimal;
      ghost var before := dir;
      var pending := Pending(logname);
      mid, i := dir, 0;
      if pending !in dir {
        ok := Rename(logname, pending);
        if !ok {
          return;
        }
      }
      ok, i := RenameLogfile(pending);
      mid := dir;
      ghost var from := if pending in before then pending else logname;
      ghost var time := stamp(before[from].mtime);
      ghost var to := Candidate(Stem(before[from].mtime), suffix, i);
      NotOwnName(logname, time, suffix, i);
      assert mid == Moved(before, from, to);
      MoveConserves(before, from, to);
      CandidateMatches(logname, time, suffix, i);
      OwnFilesDoNotMatch(logname, suffix);
      OneArchiveMore(before, from, to, logname, suffix);
      RemoveOld();
    }
  }

  /** No archive name is the log's own name or its pending name. */
  lemma NotOwnName(logname: string, stamp: string, suffix: string, i: nat)
    ensures Candidate(logname + "-" + stamp, suffix, i) != logname
    ensures Candidate(logname + "-" + stamp, suffix, i) != Pending(logname)
  {
    var c := Candidate(logname + "-" + stamp, suffix, i);
    assert c[|logname|] == '-';
    assert Pending(logname)[|logname|] == '.';
  }
}
