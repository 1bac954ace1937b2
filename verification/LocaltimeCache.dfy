/** The localtime cache: one remembered pair behind a compare-and-swap spin lock, under any number of
    threads. Every lock attempt and every read or write of the shared pair is a step of its own. */
module LocaltimeCache {
  import opened Wrappers

  /** `conv` is localtime_r in a fixed time zone: None where it fails. `zero` is the broken-down time
      that static storage starts with. */
  datatype Clock<Tm> = Clock(conv: int -> Option<Tm>, zero: Tm)

  datatype Pc<Tm> =
    | Idle
    | Locking(t: int)                       // before the first lock
    | Comparing(t: int)                     // holding: compare with last_time
    | Copying(t: int)                       // holding: copy last_tm
    | Leaving(t: int, r: Option<Tm>)        // holding: unlock and return
    | Unlocking(t: int)                     // holding: unlock before the slow call
    | Converting(t: int)                    // the slow call, lock not held
    | Relocking(t: int, r: Option<Tm>)      // before the second lock
    | StoringTime(t: int, r: Option<Tm>)    // holding: write last_time
    | StoringTm(t: int, r: Option<Tm>)      // holding: write last_tm
    | Done(t: int, r: Option<Tm>)

  /** `stored` records whether any thread has written the pair. */
  datatype State<Tm> = State(
    lock: int, lastTime: int, lastTm: Tm, pcs: map<nat, Pc<Tm>>, stored: bool)
  {
    function Pc(i: nat): Pc<Tm> { if i in pcs then pcs[i] else Idle }
    function At(i: nat, p: Pc<Tm>): State<Tm> { this.(pcs := pcs[i := p]) }
  }

  datatype Action = Call(i: nat, t: int) | Step(i: nat) | Forget(i: nat)

  ghost predicate Init<Tm>(c: Clock<Tm>, s: State<Tm>)
  {
    s.lock == 0 && s.lastTime == 0 && s.lastTm == c.zero && s.pcs == map[] && !s.stored
  }

  predicate Enabled<Tm>(s: State<Tm>, a: Action)
  {
    match a
    case Call(i, _) => s.Pc(i).Idle?
    case Step(i) => !s.Pc(i).Idle? && !s.Pc(i).Done?
    case Forget(i) => s.Pc(i).Done?
  }

  /** A compare-and-swap of the lock word; a failed one leaves the thread where it is. */
  function Swap<Tm>(s: State<Tm>, expected: int, value: int): State<Tm>
  {
    if s.lock == expected then s.(lock := value) else s
  }

  function TakeStep<Tm>(c: Clock<Tm>, s: State<Tm>, i: nat): State<Tm>
    requires Enabled(s, Step(i))
  {
    match s.Pc(i)
    case Locking(t) => if s.lock == 0 then Swap(s, 0, 1).At(i, Comparing(t)) else s
    case Comparing(t) => if t == s.lastTime then s.At(i, Copying(t)) else s.At(i, Unlocking(t))
    case Copying(t) => s.At(i, Leaving(t, Some(s.lastTm)))
    case Leaving(t, r) => Swap(s, 1, 0).At(i, Done(t, r))
    case Unlocking(t) => Swap(s, 1, 0).At(i, Converting(t))
    case Converting(t) => s.At(i, Relocking(t, c.conv(t)))
    case Relocking(t, r) => if s.lock == 0 then Swap(s, 0, 1).At(i, if r.Some? then StoringTime(t, r) else Leaving(t, r)) else s
    case StoringTime(t, r) => s.(lastTime := t, stored := true).At(i, StoringTm(t, r))
    case StoringTm(t, r) => (if r.Some? then s.(lastTm := r.value) else s).At(i, Leaving(t, r))
  }

  function Next<Tm>(c: Clock<Tm>, s: State<Tm>, a: Action): State<Tm>
    requires Enabled(s, a)
  {
    match a
    case Call(i, t) => s.At(i, Locking(t))
    case Step(i) => TakeStep(c, s, i)
    case Forget(i) => s.At(i, Idle)
  }

  predicate Holding<Tm>(p: Pc<Tm>)
  {
    p.Comparing? || p.Copying? || p.Leaving? || p.Unlocking? || p.StoringTime? || p.StoringTm?
  }

  /** The pair is one the slow call gives, or the untouched initial one. */
  ghost predicate Consistent<Tm>(c: Clock<Tm>, s: State<Tm>)
  {
    if s.stored then c.conv(s.lastTime) == Some(s.lastTm) else s.lastTime == 0 && s.lastTm == c.zero
  }

  /** A result is what the slow call gives, except that time 0 may get the initial storage. */
  ghost predicate Right<Tm>(c: Clock<Tm>, t: int, r: Option<Tm>)
  {
    r == c.conv(t) || (t == 0 && r == Some(c.zero))
  }

  ghost predicate ThreadInv<Tm>(c: Clock<Tm>, lastTime: int, stored: bool, p: Pc<Tm>)
  {
    && (p.Copying? ==> p.t == lastTime)
    && (p.Leaving? || p.Done? ==> Right(c, p.t, p.r))
    && (p.Relocking? ==> p.r == c.conv(p.t))
    && (p.StoringTime? || p.StoringTm? ==> p.r == c.conv(p.t) && p.r.Some?)
    && (p.StoringTm? ==> p.t == lastTime && stored)
  }

  /** At most one thread is between lock and unlock, and the lock word says whether one is; the pair is
      consistent unless that thread is between its two writes. */
  ghost predicate Inv<Tm>(c: Clock<Tm>, s: State<Tm>)
  {
    && (s.lock == 0 || s.lock == 1)
    && (s.lock == 0 ==> forall i :: i in s.pcs ==> !Holding(s.pcs[i]))
    && (s.lock == 1 ==> exists i :: i in s.pcs && Holding(s.pcs[i]))
    && (forall i, j :: i in s.pcs && j in s.pcs && Holding(s.pcs[i]) && Holding(s.pcs[j]) ==> i == j)
    && (forall i :: i in s.pcs ==> ThreadInv(c, s.lastTime, s.stored, s.pcs[i]))
    && ((forall i :: i in s.pcs ==> !s.pcs[i].StoringTm?) ==> Consistent(c, s))
  }

  lemma NextKeeps<Tm>(c: Clock<Tm>, s: State<Tm>, a: Action)
    requires Inv(c, s) && Enabled(s, a)
    ensures Inv(c, Next(c, s, a))
  {
    hide Inv;
    match a
    case Step(i) =>
      if Holding(s.Pc(i)) {
        HolderStep(c, s, i);
      } else {
        OutsideStep(c, s, i);
      }
    case Call(i, t) => Moves(c, s, i, Locking(t), s.lock);
    case Forget(i) => Moves(c, s, i, Idle, s.lock);
  }

  /** A thread outside the lock goes somewhere outside it, or takes the free lock. */
  lemma Moves<Tm>(c: Clock<Tm>, s: State<Tm>, i: nat, p: Pc<Tm>, lock: int)
    requires Inv(c, s) && !Holding(s.Pc(i)) && !p.StoringTm?
    requires ThreadInv(c, s.lastTime, s.stored, p)
    requires if Holding(p) then s.lock == 0 && lock == 1 else lock == s.lock
    ensures Inv(c, s.At(i, p).(lock := lock))
  {
    hide ThreadInv;
    var q := s.At(i, p).(lock := lock);
    assert forall j :: j in q.pcs && j != i ==> j in s.pcs && q.pcs[j] == s.pcs[j];
    assert i in q.pcs && q.pcs[i] == p;
    if s.lock == 1 {
      var h :| h in s.pcs && Holding(s.pcs[h]);
      assert h in q.pcs && Holding(q.pcs[h]);
    }
    if forall j :: j in q.pcs ==> !q.pcs[j].StoringTm? {
      forall j | j in s.pcs
        ensures !s.pcs[j].StoringTm?
      {
        if j != i {
          assert j in q.pcs;
        }
      }
    }
  }

  lemma OutsideStep<Tm>(c: Clock<Tm>, s: State<Tm>, i: nat)
    requires Inv(c, s) && Enabled(s, Step(i)) && !Holding(s.Pc(i))
    ensures Inv(c, Next(c, s, Step(i)))
  {
    var q := Next(c, s, Step(i));
    assert ThreadInv(c, s.lastTime, s.stored, s.pcs[i]);
    if q != s {
      Moves(c, s, i, q.Pc(i), q.lock) by { hide Inv; }
      assert q == s.At(i, q.Pc(i)).(lock := q.lock);
    }
  }

  /** A step of the one thread that holds the lock. */
  lemma HolderStep<Tm>(c: Clock<Tm>, s: State<Tm>, i: nat)
    requires Inv(c, s) && Enabled(s, Step(i)) && Holding(s.Pc(i))
    ensures Inv(c, Next(c, s, Step(i)))
  {
    var q := Next(c, s, Step(i));
    var p := q.Pc(i);
    assert ThreadInv(c, s.lastTime, s.stored, s.pcs[i]);
    assert !s.pcs[i].StoringTm? ==> Consistent(c, s) by { OnlyHolder(c, s, i); }
    assert q.pcs == s.pcs[i := p];
    assert ThreadInv(c, q.lastTime, q.stored, p);
    assert !p.StoringTm? ==> Consistent(c, q);
    OnlyHolder(c, s, i);
    forall j | j in s.pcs && j != i
      ensures ThreadInv(c, q.lastTime, q.stored, s.pcs[j])
    {
      assert ThreadInv(c, s.lastTime, s.stored, s.pcs[j]);
    }
    HolderMoves(c, s, q, i, p);
  }

  lemma OnlyHolder<Tm>(c: Clock<Tm>, s: State<Tm>, i: nat)
    requires Inv(c, s) && Holding(s.Pc(i))
    ensures i in s.pcs && s.lock == 1
    ensures forall j :: j in s.pcs && j != i ==> !Holding(s.pcs[j])
    ensures !s.pcs[i].StoringTm? ==> Consistent(c, s)
  {
    hide ThreadInv, Consistent;
    if !s.pcs[i].StoringTm? {
      forall j | j in s.pcs
        ensures !s.pcs[j].StoringTm?
      {
        assert j != i ==> !Holding(s.pcs[j]);
      }
    }
  }

  lemma HolderMoves<Tm>(c: Clock<Tm>, s: State<Tm>, q: State<Tm>, i: nat, p: Pc<Tm>)
    requires i in s.pcs && q.pcs == s.pcs[i := p]
    requires forall j :: j in s.pcs && j != i ==> !Holding(s.pcs[j]) && ThreadInv(c, q.lastTime, q.stored, s.pcs[j])
    requires ThreadInv(c, q.lastTime, q.stored, p)
    requires q.lock == if Holding(p) then 1 else 0
    requires !p.StoringTm? ==> Consistent(c, q)
    ensures Inv(c, q)
  {
    hide ThreadInv, Consistent;
    assert q.pcs[i] == p;
  }

  lemma InitInv<Tm>(c: Clock<Tm>, s: State<Tm>)
    requires Init(c, s)
    ensures Inv(c, s)
  {
  }

  ghost predicate Run<Tm>(c: Clock<Tm>, states: seq<State<Tm>>, actions: seq<Action>)
  {
    && |states| == |actions| + 1
    && Init(c, states[0])
    && forall k :: 0 <= k < |actions| ==> Enabled(states[k], actions[k]) && states[k + 1] == Next(c, states[k], actions[k])
  }

  lemma {:induction false} RunKeeps<Tm>(c: Clock<Tm>, states: seq<State<Tm>>, actions: seq<Action>, k: nat)
    requires Run(c, states, actions) && k <= |actions|
    ensures Inv(c, states[k])
  {
    hide Inv, Init, Enabled, Next;
    if k == 0 {
      InitInv(c, states[0]);
    } else {
      RunKeeps(c, states, actions, k - 1);
      NextKeeps(c, states[k - 1], actions[k - 1]);
    }
  }

  /** In every interleaving the lock excludes, and the pair read under it is consistent. */
  lemma CacheConsistent<Tm>(c: Clock<Tm>, states: seq<State<Tm>>, actions: seq<Action>, k: nat, i: nat, j: nat)
    requires Run(c, states, actions) && k <= |actions|
    ensures Holding(states[k].Pc(i)) && Holding(states[k].Pc(j)) ==> i == j
    ensures Holding(states[k].Pc(i)) && !states[k].Pc(i).StoringTm? ==> Consistent(c, states[k])
  {
    RunKeeps(c, states, actions, k);
    if Holding(states[k].Pc(i)) {
      OnlyHolder(c, states[k], i);
    }
  }

  /** Every finished call for a time other than 0 returns what the slow call would. */
  lemma AgreesWithSlowCall<Tm>(c: Clock<Tm>, states: seq<State<Tm>>, actions: seq<Action>, k: nat, i: nat)
    requires Run(c, states, actions) && k <= |actions| && states[k].Pc(i).Done?
    ensures states[k].Pc(i).t != 0 ==> states[k].Pc(i).r == c.conv(states[k].Pc(i).t)
    ensures Right(c, states[k].Pc(i).t, states[k].Pc(i).r)
  {
    RunKeeps(c, states, actions, k);
    assert ThreadInv(c, states[k].lastTime, states[k].stored, states[k].pcs[i]);
  }

  /** The fast path is right exactly when the time asked for is not 0 or the pair has been written
      before: the untouched static storage answers for time 0 with a broken-down time of all zeros. */
  lemma FastPathRightExactly<Tm>(c: Clock<Tm>, s: State<Tm>, i: nat)
    requires Inv(c, s) && s.Pc(i).Copying? && c.conv(0) != Some(c.zero)
    ensures Next(c, s, Step(i)).Pc(i).r == c.conv(s.Pc(i).t) <==> s.Pc(i).t != 0 || s.stored
  {
    OnlyHolder(c, s, i);
    assert ThreadInv(c, s.lastTime, s.stored, s.pcs[i]);
  }

  /** The failing call: the first one ever, for time 0. */
  lemma FirstCallForZero<Tm>(c: Clock<Tm>, s: State<Tm>)
    requires Init(c, s) && c.conv(0) != Some(c.zero)
    ensures var s1 := Next(c, s, Call(0, 0));
      var s2 := Next(c, s1, Step(0)); var s3 := Next(c, s2, Step(0));
      var s4 := Next(c, s3, Step(0)); var s5 := Next(c, s4, Step(0));
      s5.Pc(0).Done? && s5.Pc(0).r == Some(c.zero) != c.conv(0)
  {
  }

  /** n steps of one thread, or fewer when its call has finished. */
  function Alone<Tm>(c: Clock<Tm>, s: State<Tm>, i: nat, n: nat): State<Tm>
    decreases n
  {
    if n == 0 || !Enabled(s, Step(i)) then s else Alone(c, Next(c, s, Step(i)), i, n - 1)
  }

  /** One step of a thread alone. */
  lemma OneStep<Tm>(c: Clock<Tm>, s: State<Tm>, i: nat, p: Pc<Tm>, n: nat, q: State<Tm>, p': Pc<Tm>)
    requires n > 0 && !p.Idle? && !p.Done?
    requires TakeStep(c, s.At(i, p), i).(pcs := s.pcs) == q.(pcs := s.pcs) && q.pcs == s.pcs
    requires TakeStep(c, s.At(i, p), i).pcs == s.pcs[i := p][i := p']
    ensures Alone(c, s.At(i, p), i, n) == Alone(c, q.At(i, p'), i, n - 1)
  {
    assert s.pcs[i := p][i := p'] == s.pcs[i := p'];
    assert TakeStep(c, s.At(i, p), i) == q.At(i, p');
  }

  lemma Finished<Tm>(c: Clock<Tm>, s: State<Tm>, i: nat, n: nat)
    requires s.Pc(i).Done?
    ensures Alone(c, s, i, n) == s
  {
  }

  /** A whole call that finds the lock free and is not disturbed: a time that is remembered is answered from
      the pair, in four steps and without the slow call; any other is converted, and remembered if that
      succeeded. The lock is free again. */
  lemma CallAlone<Tm>(c: Clock<Tm>, s: State<Tm>, i: nat, t: int)
    requires s.lock == 0 && s.Pc(i).Idle?
    ensures var begun := Next(c, s, Call(i, t));
      if t == s.lastTime then Alone(c, begun, i, 4) == s.At(i, Done(t, Some(s.lastTm)))
      else if c.conv(t).Some? then
        Alone(c, begun, i, 8) == s.At(i, Done(t, c.conv(t))).(lastTime := t, lastTm := c.conv(t).value, stored := true)
      else Alone(c, begun, i, 6) == s.At(i, Done(t, None))
  {
    hide Alone, TakeStep;
    if t == s.lastTime {
      RememberedAlone(c, s, i, t);
    } else {
      ConvertedAlone(c, s, i, t);
    }
  }

  lemma RememberedAlone<Tm>(c: Clock<Tm>, s: State<Tm>, i: nat, t: int)
    requires s.lock == 0 && t == s.lastTime
    ensures Alone(c, s.At(i, Locking(t)), i, 4) == s.At(i, Done(t, Some(s.lastTm)))
  {
    hide Alone;
    var r, held := Some(s.lastTm), s.(lock := 1);
    OneStep(c, s, i, Locking(t), 4, held, Comparing(t));
    OneStep(c, held, i, Comparing(t), 3, held, Copying(t));
    OneStep(c, held, i, Copying(t), 2, held, Leaving(t, r));
    OneStep(c, held, i, Leaving(t, r), 1, s, Done(t, r));
    Finished(c, s.At(i, Done(t, r)), i, 0);
  }

  lemma ConvertedAlone<Tm>(c: Clock<Tm>, s: State<Tm>, i: nat, t: int)
    requires s.lock == 0 && t != s.lastTime
    ensures
      if c.conv(t).Some? then
        Alone(c, s.At(i, Locking(t)), i, 8) == s.At(i, Done(t, c.conv(t))).(lastTime := t, lastTm := c.conv(t).value, stored := true)
      else Alone(c, s.At(i, Locking(t)), i, 6) == s.At(i, Done(t, None))
  {
    hide Alone;
    var r, held := c.conv(t), s.(lock := 1);
    var n := if r.Some? then 8 else 6;
    OneStep(c, s, i, Locking(t), n, held, Comparing(t));
    OneStep(c, held, i, Comparing(t), n - 1, held, Unlocking(t));
    OneStep(c, held, i, Unlocking(t), n - 2, s, Converting(t));
    OneStep(c, s, i, Converting(t), n - 3, s, Relocking(t, r));
    if r.Some? {
      StoringAlone(c, s, i, t, r);
    } else {
      OneStep(c, s, i, Relocking(t, r), 2, held, Leaving(t, r));
      OneStep(c, held, i, Leaving(t, r), 1, s, Done(t, r));
      Finished(c, s.At(i, Done(t, r)), i, 0);
    }
  }

  lemma StoringAlone<Tm>(c: Clock<Tm>, s: State<Tm>, i: nat, t: int, r: Option<Tm>)
    requires s.lock == 0 && r.Some?
    ensures Alone(c, s.At(i, Relocking(t, r)), i, 4) == s.At(i, Done(t, r)).(lastTime := t, lastTm := r.value, stored := true)
  {
    hide Alone;
    var held := s.(lock := 1);
    var timed := held.(lastTime := t, stored := true);
    var both := timed.(lastTm := r.value);
    OneStep(c, s, i, Relocking(t, r), 4, held, StoringTime(t, r));
    OneStep(c, held, i, StoringTime(t, r), 3, timed, StoringTm(t, r));
    OneStep(c, timed, i, StoringTm(t, r), 2, both, Leaving(t, r));
    OneStep(c, both, i, Leaving(t, r), 1, both.(lock := 0), Done(t, r));
    Finished(c, both.(lock := 0).At(i, Done(t, r)), i, 0);
  }
}
