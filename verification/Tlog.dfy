/** The worker's round over all logs once the daemon is shutting down: `run` is 0, nobody prints, no
    log is being closed. */
module Tlog {
  import opened Segments
  import opened Ring
  import opened LogSystem
  import opened LogSafety
  import opened LogTheorems
  import opened TlogLog

  class Daemon {
    const logs: seq<Log>  // the list from its head, newest log first
    var cursor: int       // the log of the last turn; -1 stands for NULL

    constructor (logs: seq<Log>)
      ensures this.logs == logs && cursor == -1
    {
      this.logs := logs;
      cursor := -1;
    }

    ghost predicate Valid()
      reads logs, set i | 0 <= i < |logs| :: logs[i].buff
    {
      && (forall i, j :: 0 <= i < j < |logs| ==> logs[i] != logs[j])
      && (forall i :: 0 <= i < |logs| ==> logs[i].Valid())
    }

    /** All logs as values. */
    ghost function Values(): (v: seq<LogValue>)
      reads logs, set k | 0 <= k < |logs| :: logs[k].buff
      ensures |v| == |logs|
      ensures forall i :: 0 <= i < |logs| ==> v[i] == LogValue(logs[i].View(), logs[i].segment, logs[i].dropped, logs[i].out)
    {
      seq(|logs|, i requires 0 <= i < |logs| reads logs, (set k | 0 <= k < |logs| :: logs[k].buff) =>
        LogValue(logs[i].View(), logs[i].segment, logs[i].dropped, logs[i].out))
    }

    method AnyHasData() returns (any: bool)
      ensures any <==> Busy(Values()) != {}
    {
      var next := 0;
      while next < |logs|
        invariant 0 <= next <= |logs|
        invariant forall i :: 0 <= i < next ==> !Values()[i].ring.HasData()
      {
        var has := logs[next].HasData();
        if has {
          assert next in Busy(Values());
          return true;
        }
        next := next + 1;
      }
      any := false;
    }

    /** One turn of the round on a log that has data. */
    method Visit(k: int)
      requires Valid() && 0 <= k < |logs|
      requires logs[k].View().HasData()
      modifies logs[k]
      ensures Valid() && |Values()| == |logs|
      ensures forall i :: 0 <= i < |logs| && i != k ==> Values()[i] == old(Values())[i]
      ensures Settled(old(Values())[k], Values()[k]) && !Values()[k].ring.HasData()
    {
      logs[k].Pass();
      assert forall i :: 0 <= i < |logs| && i != k ==> logs[i] != logs[k];
    }

    /** One turn of the worker's loop: stop when no log has data, else step to the next entry of the
        list, NULL included, and serve it if it has data. */
    method Turn() returns (stop: bool)
      requires Valid() && -1 <= cursor < |logs|
      modifies this`cursor, logs
      ensures Valid() && -1 <= cursor < |logs|
      ensures stop <==> Busy(old(Values())) == {}
      ensures stop ==> Values() == old(Values())
      ensures !stop ==> cursor == if old(cursor) + 1 == |logs| then -1 else old(cursor) + 1
      ensures !stop && cursor >= 0 ==> !Values()[cursor].ring.HasData()
      ensures !stop ==> Served(old(Values()), old(cursor), Values(), cursor)
    {
      hide Valid, Served, Settled;
      ghost var before, was := Values(), cursor;
      var any := AnyHasData();
      if !any {
        return true;
      }
      stop := false;
      if cursor + 1 == |logs| {
        cursor := -1;
        StepsNearer(before, was, cursor);
        return;
      }
      cursor := cursor + 1;
      var has := logs[cursor].HasData();
      if !has {
        StepsNearer(before, was, cursor);
        return;
      }
      Visit(cursor);
      ServesOne(before, was, Values(), cursor);
    }

    /** The shutdown round. It ends, and then every log that had data has put out all of it in one
        pass, and the other logs are untouched. So every log that was the end of a run, of any number of
        printing threads and the worker, has put out everything that run accepted. */
    method Drain(ghost runs: seq<History>)
      requires Valid() && -1 <= cursor < |logs| && |runs| == |logs|
      modifies this`cursor, logs
      ensures Valid() && Busy(Values()) == {}
      ensures forall i :: 0 <= i < |logs| ==> Settled(old(Values())[i], Values()[i])
      ensures forall i :: 0 <= i < |logs| ==> DropsKept(old(Values())[i], Values()[i])
      ensures forall i :: 0 <= i < |logs| && EndsIn(runs[i], old(Values())[i]) ==> PutOutAll(runs[i], Values()[i])
    {
      hide Settled, Valid, EndsIn, PutOutAll, DropsKept;
      ghost var before, now := Values(), Values();
      var stop := false;
      while !stop
        invariant Valid() && -1 <= cursor < |logs| && |now| == |logs|
        invariant now == Values()
        invariant AllSettled(before, now)
        invariant stop ==> Busy(now) == {}
        decreases if stop then 0 else 1, Busy(now), Distance(now, cursor)
      {
        ghost var was := cursor;
        stop := Turn();
        if !stop {
          ServedStep(before, now, was, Values(), cursor);
        }
        now := Values();
      }
      AllSettledMeans(before, now);
      AllPutOut(runs, before, now);
    }
  }

  ghost function Busy(v: seq<LogValue>): set<int>
  {
    set i | 0 <= i < |v| && v[i].ring.HasData()
  }

  /** The log is as it was, or it had data and one pass has put all of it out. */
  ghost predicate Settled(before: LogValue, after: LogValue)
  {
    || after == before
    || (&& before.ring.HasData() && !after.ring.HasData()
        && after.ring.Shape() && after.ring.Unread() == []
        && after.dropped == 0 && after.segment == before.segment
        && Passed(before.ring, before.segment, before.dropped, before.out, after.out))
  }

  ghost predicate AllSettled(before: seq<LogValue>, after: seq<LogValue>)
    requires |before| == |after|
  {
    forall i :: 0 <= i < |before| ==> after[i] == before[i] || (Settled(before[i], after[i]) && !after[i].ring.HasData())
  }

  /** The turns until the next log with data: up to the end of the list, and once more round when
      every such log lies behind the cursor. */
  ghost function Distance(v: seq<LogValue>, cursor: int): nat
    requires -1 <= cursor < |v|
  {
    (if exists i :: i in Busy(v) && i > cursor then 0 else |v| + 2) + |v| - cursor
  }

  /** A turn serves the entry it steps to, or gets nearer to one with data. */
  ghost predicate Served(before: seq<LogValue>, from: int, after: seq<LogValue>, to: int)
  {
    && |after| == |before| && -1 <= from < |before| && -1 <= to < |before|
    && ((after == before && Distance(after, to) < Distance(before, from))
        || (0 <= to && before[to].ring.HasData() && !after[to].ring.HasData() && Settled(before[to], after[to])
            && forall i :: 0 <= i < |before| && i != to ==> after[i] == before[i]))
  }

  /** Stepping over the end of the list, or to a log without data, gets nearer to one with data. */
  lemma StepsNearer(v: seq<LogValue>, from: int, to: int)
    requires Busy(v) != {} && -1 <= from < |v|
    requires if from + 1 == |v| then to == -1 else to == from + 1 && !v[to].ring.HasData()
    ensures Served(v, from, v, to)
  {
    var k :| k in Busy(v);
    if to == -1 {
      assert k > to;
    } else {
      assert to !in Busy(v);
    }
  }

  lemma ServesOne(before: seq<LogValue>, from: int, after: seq<LogValue>, to: int)
    requires |after| == |before| && -1 <= from < |before| && 0 <= to < |before|
    requires before[to].ring.HasData() && !after[to].ring.HasData() && Settled(before[to], after[to])
    requires forall i :: 0 <= i < |before| && i != to ==> after[i] == before[i]
    ensures Served(before, from, after, to)
  {
  }

  lemma AllSettledMeans(before: seq<LogValue>, after: seq<LogValue>)
    requires |before| == |after| && AllSettled(before, after)
    ensures forall i :: 0 <= i < |before| ==> Settled(before[i], after[i])
  {
  }

  lemma ServedStep(first: seq<LogValue>, before: seq<LogValue>, from: int, after: seq<LogValue>, to: int)
    requires |first| == |before| && AllSettled(first, before) && Served(before, from, after, to)
    ensures AllSettled(first, after)
    ensures Busy(after) < Busy(before) || (after == before && Distance(after, to) < Distance(before, from))
  {
    hide Settled, Distance;
    if after != before {
      assert to in Busy(before) && to !in Busy(after);
      assert forall i :: i in Busy(after) ==> i in Busy(before);
      assert after[to] != before[to];
      assert first[to] == before[to];
    }
  }

  ghost predicate Passed(r: Ring, segment: bool, drops: nat, before: seq<Event>, after: seq<Event>)
  {
    r.Shape() && r.InBounds(r.Take()) && after == before + PassEvents(r, segment, r.Take(), drops)
  }

  lemma SettledPlain(before: LogValue, after: LogValue, accepted: seq<Line>)
    requires Settled(before, after) && !after.ring.HasData() && before.ring.Shape() && !before.segment
    requires Flat(false, accepted) == TextOf(before.out) + before.ring.Unread()
    ensures TextOf(after.out) == Flat(false, accepted)
  {
    hide TextOf, Flat, ReportedIn, PassEvents;
    if after == before {
      TakeCoversUnread(before.ring);
      assert before.ring.Unread() == [];
    } else {
      PassDelivers(before.ring, before.dropped);
      TextOfConcat(before.out, PassEvents(before.ring, false, before.ring.Take(), before.dropped));
    }
  }

  lemma SettledSegment(before: LogValue, after: LogValue, done: seq<Line>, upper: seq<Line>, lower: seq<Line>)
    requires Settled(before, after) && !after.ring.HasData() && before.segment
    requires RingInv(true, before.ring, upper, lower) && TextsOf(before.out) == done
    ensures TextsOf(after.out) == done + (upper + lower)
  {
    hide TextsOf, Flat, RingInv, PassEvents;
    if after == before {
      NothingHeld(before.ring, upper, lower);
    } else {
      PassDeliversRecords(before.ring, upper, lower, before.dropped);
      TextOfConcat(before.out, PassEvents(before.ring, true, before.ring.Take(), before.dropped));
    }
  }

  lemma SettledMode(before: LogValue, after: LogValue)
    requires Settled(before, after)
    ensures after.segment == before.segment
  {
  }

  function AsValue(s: State): LogValue { LogValue(s.ring, s.segment, s.dropped, s.out) }

  /** A run of one log. */
  datatype History = History(states: seq<State>, actions: seq<Action>)

  ghost predicate EndsIn(h: History, v: LogValue)
  {
    && Run(h.states, h.actions)
    && h.states[|h.actions|].worker.Resting? && AsValue(h.states[|h.actions|]) == v
  }

  /** The output is everything the run accepted, in order. */
  ghost predicate PutOutAll(h: History, v: LogValue)
  {
    && |h.states| == |h.actions| + 1
    && var accepted := AcceptedIn(h.states, h.actions, |h.actions|);
       if v.segment then TextsOf(v.out) == accepted else TextOf(v.out) == Flat(false, accepted)
  }

  /** Drops are announced when a log is served, and otherwise still counted. */
  ghost predicate DropsKept(before: LogValue, after: LogValue)
  {
    && ReportedIn(after.out) + after.dropped == ReportedIn(before.out) + before.dropped
    && (before.ring.HasData() ==> after.dropped == 0)
  }

  lemma SettledDrops(before: LogValue, after: LogValue)
    requires Settled(before, after) && !after.ring.HasData()
    ensures DropsKept(before, after)
  {
    hide PassEvents, ReportedIn;
    if after != before {
      var snap := before.ring.Take();
      PassReports(before.ring, before.segment, snap, before.dropped);
      TextOfConcat(before.out, PassEvents(before.ring, before.segment, snap, before.dropped));
    }
  }

  /** Shutdown loses nothing: if the printing threads and the worker have run in any way at all, and
      the shutdown round then settles the log, everything ever accepted has been put out; and every call
      that returned is accepted, unformattable, announced as dropped, or counted in a log without data. */
  lemma ShutdownDeliversAll(states: seq<State>, actions: seq<Action>, after: LogValue)
    requires Run(states, actions) && states[|actions|].worker.Resting?
    requires Settled(AsValue(states[|actions|]), after) && !after.ring.HasData()
    ensures after.segment == states[0].segment
    ensures !states[0].segment ==> TextOf(after.out) == Flat(false, AcceptedIn(states, actions, |actions|))
    ensures states[0].segment ==> TextsOf(after.out) == AcceptedIn(states, actions, |actions|)
    ensures ReturnedIn(states, actions, |actions|)
      == |AcceptedIn(states, actions, |actions|)| + UnformattedIn(actions, |actions|) + ReportedIn(after.out) + after.dropped
    ensures states[|actions|].ring.HasData() ==> after.dropped == 0
  {
    hide Inv, Settled, Flat, TextOf, TextsOf, ReportedIn, AcceptedIn, ReturnedIn, UnformattedIn;
    DropAccounting(states, actions, |actions|);
    SettledDrops(AsValue(states[|actions|]), after);
    var i := |actions|;
    var s := states[i];
    RunKeeps(states, actions, i);
    AcceptedIsHistory(states, actions, i);
    SettledMode(AsValue(s), after);
    if states[0].segment {
      RestingParts(s);
      SettledSegment(AsValue(s), after, s.done, s.upper, s.lower);
      assert s.done + (s.upper + s.lower) == s.Accepted();
    } else {
      FifoStream(states, actions, i);
      SettledPlain(AsValue(s), after, AcceptedIn(states, actions, i));
    }
  }

  lemma AllPutOut(runs: seq<History>, before: seq<LogValue>, after: seq<LogValue>)
    requires |runs| == |before| == |after| && Busy(after) == {}
    requires forall i :: 0 <= i < |before| ==> Settled(before[i], after[i])
    ensures forall i :: 0 <= i < |runs| ==> DropsKept(before[i], after[i])
    ensures forall i :: 0 <= i < |runs| && EndsIn(runs[i], before[i]) ==> PutOutAll(runs[i], after[i])
  {
    forall i | 0 <= i < |runs|
      ensures DropsKept(before[i], after[i])
    {
      hide DropsKept, Settled;
      assert i !in Busy(after);
      SettledDrops(before[i], after[i]);
    }
    hide Settled, Init, Enabled, Next, Modest, AcceptedIn, TextOf, TextsOf, Flat;
    forall i | 0 <= i < |runs| && EndsIn(runs[i], before[i])
      ensures PutOutAll(runs[i], after[i])
    {
      assert i !in Busy(after);
      ShutdownDeliversAll(runs[i].states, runs[i].actions, after[i]);
    }
  }

  lemma RestingParts(s: State)
    requires Inv(s) && s.worker.Resting?
    ensures RingInv(s.segment, s.ring, s.upper, s.lower)
    ensures s.segment ==> TextsOf(s.out) == s.done
  {
  }
}
