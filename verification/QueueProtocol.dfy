/** The queue calls of any number of threads as a step system: every semaphore operation and every
    critical section is a step of its own. */
module QueueProtocol {
  import opened Wrappers
  import opened CircularQueue

  datatype Pc<T> =
    | Idle
    | PushEntry(v: T, timed: bool)   // before sem_wait or sem_timedwait on nempty
    | PushAtMutex(v: T)
    | PushInside(v: T)
    | PushUnlock(r: int)
    | PushPost(r: int)
    | PopEntry(timed: bool)          // before sem_wait or sem_timedwait on nstored
    | PopAtMutex
    | PopInside
    | PopUnlock(got: Option<T>)
    | PopPost(got: Option<T>)

  datatype System<T> = System(
    circle: Circle<T>, mutex: nat, nempty: nat, nstored: nat, pcs: map<nat, Pc<T>>,
    pushed: seq<T>, popped: seq<T>)
  {
    function Pc(t: nat): Pc<T> { if t in pcs then pcs[t] else Idle }
    function At(t: nat, p: Pc<T>): System<T> { this.(pcs := pcs[t := p]) }
  }

  datatype Action<T> =
    | CallPush(t: nat, v: T, timed: bool)
    | CallPop(t: nat, timed: bool)
    | TimeOut(t: nat)
    | Step(t: nat)

  ghost predicate Init<T>(s: System<T>)
  {
    && s.circle.Max() >= 1 && s.circle == Fresh(s.circle.Max())
    && s.mutex == 1 && s.nempty == s.circle.Max() && s.nstored == 0
    && s.pcs == map[] && s.pushed == [] && s.popped == []
  }

  /** Whether thread t is in a call and its next step can be taken now. */
  predicate CanStep<T>(s: System<T>, t: nat)
  {
    match s.Pc(t)
    case Idle => false
    case PushEntry(_, _) => s.nempty > 0
    case PopEntry(_) => s.nstored > 0
    case PushAtMutex(_) => s.mutex > 0
    case PopAtMutex => s.mutex > 0
    case _ => true
  }

  predicate Enabled<T>(s: System<T>, a: Action<T>)
  {
    match a
    case CallPush(t, _, _) => s.Pc(t).Idle?
    case CallPop(t, _) => s.Pc(t).Idle?
    case TimeOut(t) => (s.Pc(t).PushEntry? && s.Pc(t).timed) || (s.Pc(t).PopEntry? && s.Pc(t).timed)
    case Step(t) => CanStep(s, t)
  }

  function TakeStep<T>(s: System<T>, t: nat): System<T>
    requires CanStep(s, t)
    requires -1 <= s.circle.wpos && 0 <= s.circle.rpos < s.circle.Max()
  {
    match s.Pc(t)
    case PushEntry(v, _) => s.At(t, PushAtMutex(v)).(nempty := s.nempty - 1)
    case PushAtMutex(v) => s.At(t, PushInside(v)).(mutex := s.mutex - 1)
    case PushInside(v) =>
      var (c, r) := s.circle.Push(v);
      s.At(t, PushUnlock(r)).(circle := c, pushed := if r == 0 then s.pushed + [v] else s.pushed)
    case PushUnlock(r) => s.At(t, PushPost(r)).(mutex := s.mutex + 1)
    case PushPost(r) => s.At(t, Idle).(nstored := s.nstored + 1)
    case PopEntry(_) => s.At(t, PopAtMutex).(nstored := s.nstored - 1)
    case PopAtMutex => s.At(t, PopInside).(mutex := s.mutex - 1)
    case PopInside =>
      var (c, got) := s.circle.Pop();
      s.At(t, PopUnlock(got)).(circle := c, popped := if got.Some? then s.popped + [got.value] else s.popped)
    case PopUnlock(got) => s.At(t, PopPost(got)).(mutex := s.mutex + 1)
    case PopPost(got) => s.At(t, Idle).(nempty := s.nempty + 1)
  }

  function Next<T>(s: System<T>, a: Action<T>): System<T>
    requires Enabled(s, a)
    requires -1 <= s.circle.wpos && 0 <= s.circle.rpos < s.circle.Max()
  {
    match a
    case CallPush(t, v, timed) => s.At(t, PushEntry(v, timed))
    case CallPop(t, timed) => s.At(t, PopEntry(timed))
    case TimeOut(t) => s.At(t, Idle)
    case Step(t) => TakeStep(s, t)
  }

  // ----- Counting the threads in transit -----

  /** Which semaphore a thread in transit has taken and not yet paid back, and on which side of its
      critical section it is. */
  datatype Group = PushBefore | PushAfter | PopBefore | PopAfter | Holding

  predicate In<T>(p: Pc<T>, g: Group)
  {
    match g
    case PushBefore => p.PushAtMutex? || p.PushInside?
    case PushAfter => p.PushUnlock? || p.PushPost?
    case PopBefore => p.PopAtMutex? || p.PopInside?
    case PopAfter => p.PopUnlock? || p.PopPost?
    case Holding => p.PushInside? || p.PushUnlock? || p.PopInside? || p.PopUnlock?
  }

  ghost function Members<T>(pcs: map<nat, Pc<T>>, g: Group): set<nat> { set t | t in pcs && In(pcs[t], g) }

  ghost function Count<T>(pcs: map<nat, Pc<T>>, g: Group): nat { |Members(pcs, g)| }

  function One(b: bool): nat { if b then 1 else 0 }

  lemma CountMoves<T>(s: System<T>, t: nat, p: Pc<T>, g: Group)
    ensures Count(s.pcs[t := p], g) == Count(s.pcs, g) - One(In(s.Pc(t), g)) + One(In(p, g))
  {
    hide In;
    var before, after := Members(s.pcs, g), Members(s.pcs[t := p], g);
    MembersElsewhere(s.pcs, t, p, g);
    SizeWith(before, t);
    SizeWith(after, t);
    IdleInNone<T>(g);
    assert t in after <==> In(p, g);
    assert t in before <==> In(s.Pc(t), g);
  }

  lemma MembersElsewhere<T>(pcs: map<nat, Pc<T>>, t: nat, p: Pc<T>, g: Group)
    ensures Members(pcs[t := p], g) - {t} == Members(pcs, g) - {t}
  {
    hide In;
    forall u | u != t
      ensures u in Members(pcs[t := p], g) <==> u in Members(pcs, g)
    {
    }
  }

  lemma IdleInNone<T>(g: Group)
    ensures !In(Pc<T>.Idle, g)
  {
  }

  lemma SizeWith(a: set<nat>, t: nat)
    ensures |a| == |a - {t}| + One(t in a)
  {
    if t in a {
      assert a == (a - {t}) + {t};
    } else {
      assert a == a - {t};
    }
  }

  lemma CountsMove<T>(s: System<T>, t: nat, p: Pc<T>)
    ensures forall g :: Count(s.pcs[t := p], g) == Count(s.pcs, g) - One(In(s.Pc(t), g)) + One(In(p, g))
  {
    forall g
      ensures Count(s.pcs[t := p], g) == Count(s.pcs, g) - One(In(s.Pc(t), g)) + One(In(p, g))
    {
      CountMoves(s, t, p, g);
    }
  }

  lemma CountPositive<T>(s: System<T>, t: nat, g: Group)
    requires In(s.Pc(t), g)
    ensures Count(s.pcs, g) > 0
  {
    assert t in Members(s.pcs, g);
  }

  // ----- The invariant -----

  /** Every token is somewhere: a free place is counted by nempty, or is in the hand of a thread about
      to fill it or done emptying it, or is filled; likewise for the items and the mutex. */
  ghost predicate Conserved<T>(s: System<T>)
  {
    && s.nempty + Count(s.pcs, PushBefore) + s.circle.size + Count(s.pcs, PopAfter) == s.circle.Max()
    && s.nstored + Count(s.pcs, PopBefore) + Count(s.pcs, PushAfter) == s.circle.size
    && s.mutex + Count(s.pcs, Holding) == 1
  }

  ghost predicate ResultsGood<T>(pcs: map<nat, Pc<T>>)
  {
    forall t :: t in pcs ==>
      && (pcs[t].PushUnlock? || pcs[t].PushPost? ==> pcs[t].r == 0)
      && (pcs[t].PopUnlock? || pcs[t].PopPost? ==> pcs[t].got.Some?)
  }

  ghost predicate Inv<T>(s: System<T>)
  {
    && s.circle.Valid()
    && Conserved(s)
    && ResultsGood(s.pcs)
    && s.pushed == s.popped + s.circle.Contents()
  }

  lemma InitInv<T>(s: System<T>)
    requires Init(s)
    ensures Inv(s)
  {
    FreshIsEmpty<T>(s.circle.Max());
    assert forall g :: Members(s.pcs, g) == {};
  }

  lemma InsideSucceeds<T>(s: System<T>, t: nat)
    requires Inv(s)
    ensures s.Pc(t).PushInside? ==> s.circle.size < s.circle.Max() && s.circle.Push(s.Pc(t).v).1 == 0
    ensures s.Pc(t).PopInside? ==> s.circle.size > 0 && s.circle.Pop().1 == Some(s.circle.Contents()[0])
  {
    if s.Pc(t).PushInside? {
      CountPositive(s, t, PushBefore);
      PushAppends(s.circle, s.Pc(t).v);
    } else if s.Pc(t).PopInside? {
      CountPositive(s, t, PopBefore);
      PopTakesFirst(s.circle);
    }
  }

  lemma StepKeeps<T>(s: System<T>, t: nat)
    requires Inv(s) && CanStep(s, t)
    ensures Inv(TakeStep(s, t))
  {
    hide Count, Circle.Valid, Circle.Contents, Circle.Push, Circle.Pop;
    ValidRange(s.circle);
    var q := TakeStep(s, t);
    CountsMove(s, t, q.Pc(t));
    assert q.pcs == s.pcs[t := q.Pc(t)];
    InsideSucceeds(s, t);
    if s.Pc(t).PushInside? {
      PushAppends(s.circle, s.Pc(t).v);
      PushSize(s.circle, s.Pc(t).v);
    } else if s.Pc(t).PopInside? {
      PopTakesFirst(s.circle);
      PopSize(s.circle);
    }
  }

  lemma ValidRange<T>(c: Circle<T>)
    requires c.Valid()
    ensures -1 <= c.wpos && 0 <= c.rpos < c.Max() && |c.Contents()| == c.size <= c.Max()
  {
  }

  lemma PushSize<T>(c: Circle<T>, v: T)
    requires c.Valid() && c.size < c.Max()
    ensures c.Push(v).0.size == c.size + 1
  {
  }

  lemma PopSize<T>(c: Circle<T>)
    requires c.Valid() && c.size > 0
    ensures c.Pop().0.size == c.size - 1
  {
  }

  lemma NextKeeps<T>(s: System<T>, a: Action<T>)
    requires Inv(s) && Enabled(s, a)
    ensures -1 <= s.circle.wpos && 0 <= s.circle.rpos < s.circle.Max()
    ensures Inv(Next(s, a))
  {
    hide Count, Circle.Valid, Circle.Contents;
    ValidRange(s.circle);
    match a
    case Step(t) => StepKeeps(s, t);
    case CallPush(t, v, timed) => CountsMove(s, t, PushEntry(v, timed));
    case CallPop(t, timed) => CountsMove(s, t, PopEntry(timed));
    case TimeOut(t) => CountsMove(s, t, Idle);
  }

  // ----- Runs -----

  ghost predicate Run<T>(states: seq<System<T>>, actions: seq<Action<T>>)
  {
    && |states| == |actions| + 1
    && Init(states[0])
    && forall i :: 0 <= i < |actions| ==>
      && -1 <= states[i].circle.wpos && 0 <= states[i].circle.rpos < states[i].circle.Max()
      && Enabled(states[i], actions[i]) && states[i + 1] == Next(states[i], actions[i])
  }

  /** Every state of every run keeps the conservation equations and the queue's contents. That Run
      asks the array positions to be in range loses no run: NextKeeps shows they always are. */
  lemma {:induction false} RunKeeps<T>(states: seq<System<T>>, actions: seq<Action<T>>, i: nat)
    requires Run(states, actions) && i < |states|
    ensures Inv(states[i])
  {
    hide Inv, Next, Enabled, Init;
    if i == 0 {
      InitInv(states[0]);
    } else {
      RunKeeps(states, actions, i - 1);
      NextKeeps(states[i - 1], actions[i - 1]);
    }
  }

  /** The values the pushes of a run put in, and those its pops took out, in the order of the critical
      sections, told from the steps alone. */
  ghost function PutIn<T>(states: seq<System<T>>, actions: seq<Action<T>>, i: nat): seq<T>
    requires Run(states, actions) && i <= |actions|
  {
    if i == 0 then []
    else
      var a, s := actions[i - 1], states[i - 1];
      PutIn(states, actions, i - 1) + if a.Step? && s.Pc(a.t).PushInside? then [s.Pc(a.t).v] else []
  }

  ghost function TakenOut<T>(states: seq<System<T>>, actions: seq<Action<T>>, i: nat): seq<T>
    requires Run(states, actions) && i <= |actions|
  {
    if i == 0 then []
    else
      var a, s, q := actions[i - 1], states[i - 1], states[i];
      TakenOut(states, actions, i - 1) +
        if a.Step? && s.Pc(a.t).PopInside? && q.Pc(a.t).PopUnlock? && q.Pc(a.t).got.Some? then [q.Pc(a.t).got.value] else []
  }

  lemma StepHistory<T>(s: System<T>, a: Action<T>)
    requires Inv(s) && Enabled(s, a)
    requires -1 <= s.circle.wpos && 0 <= s.circle.rpos < s.circle.Max()
    ensures var q := Next(s, a);
      && q.pushed == s.pushed + (if a.Step? && s.Pc(a.t).PushInside? then [s.Pc(a.t).v] else [])
      && q.popped == s.popped + (if a.Step? && s.Pc(a.t).PopInside? && q.Pc(a.t).PopUnlock? && q.Pc(a.t).got.Some? then [q.Pc(a.t).got.value] else [])
      && (a.Step? && s.Pc(a.t).PopInside? ==> q.Pc(a.t).PopUnlock? && q.Pc(a.t).got.Some?)
  {
    hide Circle.Valid, Circle.Contents, Circle.Push, Circle.Pop, Conserved, ResultsGood;
    if a.Step? {
      InsideSucceeds(s, a.t);
    }
  }

  /** The queue is one bounded first-in first-out list for all threads together: what was taken out,
      followed by what the array holds, is what was put in; every push reached the array and every
      pop that got past its semaphore got an item; and the array never holds more than its maximum. */
  lemma {:induction false} Linearises<T>(states: seq<System<T>>, actions: seq<Action<T>>, i: nat)
    requires Run(states, actions) && i <= |actions|
    ensures states[i].circle.Valid()
    ensures PutIn(states, actions, i) == TakenOut(states, actions, i) + states[i].circle.Contents()
    ensures |states[i].circle.Contents()| <= states[i].circle.Max()
    ensures states[i].pushed == PutIn(states, actions, i) && states[i].popped == TakenOut(states, actions, i)
    ensures ResultsGood(states[i].pcs)
  {
    hide Next, Enabled, Conserved, ResultsGood, Circle.Contents, Circle.Valid;
    RunKeeps(states, actions, i);
    ValidRange(states[i].circle);
    if i == 0 {
      FreshIsEmpty<T>(states[0].circle.Max());
    } else {
      Linearises(states, actions, i - 1);
      RunKeeps(states, actions, i - 1);
      StepHistory(states[i - 1], actions[i - 1]);
    }
  }

  /** Inside the critical section a push always finds a free cell and a pop always finds an item. */
  lemma NeverFails<T>(states: seq<System<T>>, actions: seq<Action<T>>, i: nat, t: nat)
    requires Run(states, actions) && i <= |actions|
    ensures var s := states[i];
      && -1 <= s.circle.wpos && 0 <= s.circle.rpos < s.circle.Max() && s.circle.Valid()
      && (s.Pc(t).PushInside? ==> s.circle.size < s.circle.Max() && s.circle.Push(s.Pc(t).v).1 == 0)
      && (s.Pc(t).PopInside? ==> s.circle.size > 0 && s.circle.Pop().1 == Some(s.circle.Contents()[0]))
  {
    hide Init, Enabled, Next, Count;
    RunKeeps(states, actions, i);
    InsideSucceeds(states[i], t);
    ValidRange(states[i].circle);
  }

  /** No two threads are ever between the mutex's wait and its post. */
  lemma MutualExclusion<T>(states: seq<System<T>>, actions: seq<Action<T>>, i: nat, t: nat, u: nat)
    requires Run(states, actions) && i <= |actions|
    requires In(states[i].Pc(t), Holding) && In(states[i].Pc(u), Holding)
    ensures t == u
  {
    hide Init, Enabled, Next;
    RunKeeps(states, actions, i);
    if t != u {
      var m := Members(states[i].pcs, Holding);
      assert {t, u} <= m;
      SizeWith(m, t);
      SizeWith(m - {t}, u);
    }
  }

  /** No thread is between its semaphore wait and its last post. */
  ghost predicate Quiet<T>(s: System<T>)
  {
    forall t :: t in s.pcs ==> s.pcs[t].Idle? || s.pcs[t].PushEntry? || s.pcs[t].PopEntry?
  }

  lemma QuietCounts<T>(s: System<T>)
    requires Inv(s) && Quiet(s)
    ensures s.nempty + s.nstored == s.circle.Max() && s.nstored == |s.circle.Contents()| && s.mutex == 1
  {
    forall g
      ensures Count(s.pcs, g) == 0
    {
      assert Members(s.pcs, g) == {};
    }
    ValidRange(s.circle);
  }

  /** When no thread is in transit the two counters together make up the maximum, and agree with the
      contents. */
  lemma Quiescent<T>(states: seq<System<T>>, actions: seq<Action<T>>, i: nat)
    requires Run(states, actions) && i <= |actions| && Quiet(states[i])
    ensures states[i].circle.Valid()
    ensures states[i].nempty + states[i].nstored == states[i].circle.Max()
    ensures states[i].nstored == |states[i].circle.Contents()| && states[i].mutex == 1
  {
    hide Init, Enabled, Next, Quiet;
    RunKeeps(states, actions, i);
    QuietCounts(states[i]);
  }

  ghost predicate AllAt<T>(s: System<T>, push: bool)
  {
    forall t :: t in s.pcs ==> s.pcs[t].Idle? || if push then s.pcs[t].PushEntry? else s.pcs[t].PopEntry?
  }

  ghost predicate Stuck<T>(s: System<T>) { forall t :: !CanStep(s, t) }

  lemma StuckAt<T>(s: System<T>)
    requires Inv(s)
    ensures Stuck(s) <==>
      || (AllAt(s, true) && AllAt(s, false))
      || (AllAt(s, true) && |s.circle.Contents()| == s.circle.Max())
      || (AllAt(s, false) && s.circle.Contents() == [])
  {
    hide Circle.Valid, Circle.Contents, Conserved, ResultsGood;
    ValidRange(s.circle);
    if Stuck(s) {
      NobodyInTransit(s);
      QuietCounts(s);
      if s.nempty > 0 {
        assert AllAt(s, false) by { forall t | t in s.pcs ensures !s.pcs[t].PushEntry? { assert !CanStep(s, t); } }
      }
      if s.nstored > 0 {
        assert AllAt(s, true) by { forall t | t in s.pcs ensures !s.pcs[t].PopEntry? { assert !CanStep(s, t); } }
      }
    } else {
      if AllAt(s, true) || AllAt(s, false) {
        QuietCounts(s);
      }
    }
  }

  lemma NobodyInTransit<T>(s: System<T>)
    requires Inv(s) && Stuck(s)
    ensures Quiet(s)
  {
    if s.mutex == 0 {
      var t :| t in Members(s.pcs, Holding);
      assert CanStep(s, t);
    }
    forall t | t in s.pcs
      ensures s.pcs[t].Idle? || s.pcs[t].PushEntry? || s.pcs[t].PopEntry?
    {
      assert !CanStep(s, t);
    }
  }

  /** In a run no call can move exactly when nobody is in a call, or everybody in a call is pushing onto
      a full queue, or everybody in a call is popping from an empty one. So pushers and poppers are
      never blocked together, and a holder of the mutex is never blocked. */
  lemma StuckExactly<T>(states: seq<System<T>>, actions: seq<Action<T>>, i: nat)
    requires Run(states, actions) && i <= |actions|
    ensures states[i].circle.Valid()
    ensures Stuck(states[i]) <==>
      || (AllAt(states[i], true) && AllAt(states[i], false))
      || (AllAt(states[i], true) && |states[i].circle.Contents()| == states[i].circle.Max())
      || (AllAt(states[i], false) && states[i].circle.Contents() == [])
  {
    hide Init, Enabled, Next, Stuck, AllAt;
    RunKeeps(states, actions, i);
    StuckAt(states[i]);
  }

  /** What a thread can do next, with what POSIX promises: a wait goes through exactly while its semaphore
      is positive, only a timed one can give up, and everything else is free to go on. */
  lemma CallMoves<T>(states: seq<System<T>>, actions: seq<Action<T>>, i: nat, t: nat)
    requires Run(states, actions) && i <= |actions|
    ensures var s := states[i]; var go := Enabled(s, Step(t)); var late := Enabled(s, TimeOut(t));
      match s.Pc(t)
      case Idle => !go && !late && (forall timed :: Enabled(s, CallPop(t, timed))) && forall v, timed :: Enabled(s, CallPush(t, v, timed))
      case PushEntry(_, timed) => (go <==> s.nempty > 0) && late == timed
      case PopEntry(timed) => (go <==> s.nstored > 0) && late == timed
      case PushAtMutex(_) => (go <==> s.mutex > 0) && !late
      case PopAtMutex => (go <==> s.mutex > 0) && !late
      case _ => go && !late
  {
  }

  /** The value thread t last called a push with. */
  function LastPushed<T>(actions: seq<Action<T>>, i: nat, t: nat): Option<T>
    requires i <= |actions|
  {
    if i == 0 then None
    else if actions[i - 1].CallPush? && actions[i - 1].t == t then Some(actions[i - 1].v)
    else LastPushed(actions, i - 1, t)
  }

  predicate Pushing<T>(p: Pc<T>) { p.PushEntry? || p.PushAtMutex? || p.PushInside? }

  lemma StepValue<T>(s: System<T>, a: Action<T>, t: nat)
    requires Enabled(s, a) && -1 <= s.circle.wpos && 0 <= s.circle.rpos < s.circle.Max()
    ensures var q := Next(s, a);
      && (Pushing(q.Pc(t)) ==>
            if a.CallPush? && a.t == t then q.Pc(t).v == a.v else Pushing(s.Pc(t)) && q.Pc(t).v == s.Pc(t).v)
      && (s.Pc(t).PopUnlock? ==> q.Pc(t) == s.Pc(t) || q.Pc(t) == PopPost(s.Pc(t).got))
  {
    hide Circle.Push, Circle.Pop;
  }

  /** A push carries the value of its own call to the array. */
  lemma {:induction false} CarriesItsValue<T>(states: seq<System<T>>, actions: seq<Action<T>>, i: nat, t: nat)
    requires Run(states, actions) && i <= |actions| && Pushing(states[i].Pc(t))
    ensures LastPushed(actions, i, t) == Some(states[i].Pc(t).v)
  {
    hide Next, Enabled;
    if i > 0 {
      StepValue(states[i - 1], actions[i - 1], t);
      if !(actions[i - 1].CallPush? && actions[i - 1].t == t) {
        CarriesItsValue(states, actions, i - 1, t);
      }
    }
  }

  /** A pop's critical section takes the oldest value, and that is what the call returns. */
  lemma ReturnsWhatItTook<T>(states: seq<System<T>>, actions: seq<Action<T>>, i: nat, t: nat)
    requires Run(states, actions) && i < |actions|
    ensures states[i].circle.Valid()
    ensures actions[i] == Step(t) && states[i].Pc(t).PopInside? ==>
      states[i].circle.Contents() != [] && states[i + 1].Pc(t) == PopUnlock(Some(states[i].circle.Contents()[0]))
    ensures states[i].Pc(t).PopUnlock? ==>
      states[i + 1].Pc(t) == states[i].Pc(t) || states[i + 1].Pc(t) == PopPost(states[i].Pc(t).got)
  {
    hide Init, Inv, Circle.Valid, Circle.Contents, Circle.Push, Circle.Pop;
    StepValue(states[i], actions[i], t);
    NeverFails(states, actions, i, t);
    if states[i].Pc(t).PopInside? {
      ValidRange(states[i].circle);
    }
  }
}
