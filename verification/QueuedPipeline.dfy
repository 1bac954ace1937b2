/** The receiver and the sender over the semaphore queue itself: every push and pop is the many steps
    of QueueProtocol, and the other thread moves between them. Each such run is a run of Pipeline, in
    which a push or a pop is one step. */
module QueuedPipeline {
  import opened Wrappers
  import opened NameList
  import opened Spooling
  import CircularQueue
  import QueueProtocol
  import Pipeline
  import PipelineSafety
  import PipelineTheorems
  import PipelineSteps

  const RECEIVER: nat := 0
  const SENDER: nat := 1

  /** `parts` is everything but the queue, whose messages are in `sys`; its own queue stays empty. */
  datatype State = State(parts: Pipeline.State, sys: QueueProtocol.System<Pipeline.Item>)

  datatype Action = Own(a: Pipeline.Action) | Queue(q: QueueProtocol.Action<Pipeline.Item>)

  /** What the receiver has to push before it can go on. */
  function Wants(p: Pipeline.State): Option<Pipeline.Item>
  {
    if p.msg.None? then None
    else if p.pc.Naming? && p.spool.names.Some? then Some(Pipeline.Files(p.spool.names.value))
    else if p.pc.Flushing? && Pipeline.MustFlush(p.msg.value, p.pc.ready) && p.msg.value.kind == 0 then
      Some(Pipeline.Data(p.msg.value.chunks))
    else None
  }

  /** What the receiver does once its push has returned. */
  function Answer(p: Pipeline.State, pushed: bool): Pipeline.State
    requires Wants(p).Some?
  {
    (if p.pc.Naming? then Pipeline.OfferStep(p, pushed) else Pipeline.FlushStep(p, pushed)).(queue := p.queue)
  }

  ghost predicate Init(s: State)
  {
    Pipeline.Init(s.parts) && QueueProtocol.Init(s.sys) && s.parts.queueMax == s.sys.circle.Max()
  }

  predicate InRange(s: State) { -1 <= s.sys.circle.wpos && 0 <= s.sys.circle.rpos < s.sys.circle.Max() }

  predicate Enabled(s: State, act: Action)
  {
    match act
    case Own(a) =>
      && Pipeline.Enabled(s.parts, a)
      && if a.Send? then s.sys.Pc(SENDER).Idle?
         else !a.Take? && s.sys.Pc(RECEIVER).Idle? && Wants(s.parts).None?
    case Queue(q) =>
      && InRange(s) && QueueProtocol.Enabled(s.sys, q)
      && match q
         case CallPush(t, v, timed) => t == RECEIVER && timed && Wants(s.parts) == Some(v)
         case CallPop(t, timed) => t == SENDER && timed && s.parts.hand.None?
         case _ => true
  }

  function Next(s: State, act: Action): State
    requires Enabled(s, act)
  {
    match act
    case Own(a) => State(Pipeline.Next(s.parts, a), s.sys)
    case Queue(q) =>
      var p := s.parts;
      State(
        match q
        case TimeOut(t) => if t == RECEIVER && Wants(p).Some? then Answer(p, false) else p
        case Step(t) =>
          if s.sys.Pc(t).PushPost? && t == RECEIVER && Wants(p).Some? then Answer(p, s.sys.Pc(t).r == 0)
          else if s.sys.Pc(t).PopPost? && t == SENDER then p.(hand := s.sys.Pc(t).got)
          else p
        case _ => p,
        QueueProtocol.Next(s.sys, q))
  }

  ghost predicate Run(states: seq<State>, actions: seq<Action>)
  {
    && |states| == |actions| + 1
    && Init(states[0])
    && forall i :: 0 <= i < |actions| ==> Enabled(states[i], actions[i]) && states[i + 1] == Next(states[i], actions[i])
  }

  // ----- The pipeline this stands for -----

  predicate PushIsIn(s: State) { s.sys.Pc(RECEIVER).PushUnlock? || s.sys.Pc(RECEIVER).PushPost? }
  predicate PopIsOut(s: State) { s.sys.Pc(SENDER).PopUnlock? || s.sys.Pc(SENDER).PopPost? }

  function Hand(s: State): Option<Pipeline.Item>
  {
    if PopIsOut(s) then s.sys.Pc(SENDER).got else s.parts.hand
  }

  function Receiver(s: State): Pipeline.State
  {
    if PushIsIn(s) && Wants(s.parts).Some? then Answer(s.parts, true) else s.parts
  }

  /** A push counts as done from its critical section on, and so does a pop. */
  ghost function View(s: State): Pipeline.State
    requires s.sys.circle.Valid()
  {
    Receiver(s).(queue := s.sys.circle.Contents(), hand := Hand(s))
  }

  /** The pipeline's step for a push that went in or timed out. */
  function PushMove(p: Pipeline.State, pushed: bool): Pipeline.Action
  {
    if p.pc.Naming? then Pipeline.OfferNames(pushed) else Pipeline.Flush(pushed)
  }

  /** The step of the pipeline that a step stands for, if any. */
  function Meaning(s: State, act: Action): Option<Pipeline.Action>
  {
    match act
    case Own(a) => Some(a)
    case Queue(q) =>
      if q.TimeOut? && q.t == RECEIVER then Some(PushMove(s.parts, false))
      else if q.Step? && s.sys.Pc(q.t).PushInside? then Some(PushMove(s.parts, true))
      else if q.Step? && s.sys.Pc(q.t).PopInside? then Some(Pipeline.Take)
      else None
  }

  ghost predicate Roles(s: State)
  {
    && (forall t :: t in s.sys.pcs && t != RECEIVER && t != SENDER ==> s.sys.pcs[t].Idle?)
    && (match s.sys.Pc(RECEIVER)
        case Idle => true
        case PushEntry(v, timed) => timed && Wants(s.parts) == Some(v)
        case PushAtMutex(v) => Wants(s.parts) == Some(v)
        case PushInside(v) => Wants(s.parts) == Some(v)
        case PushUnlock(r) => Wants(s.parts).Some? && r == 0
        case PushPost(r) => Wants(s.parts).Some? && r == 0
        case _ => false)
    && (match s.sys.Pc(SENDER)
        case Idle => true
        case PopEntry(timed) => timed && s.parts.hand.None?
        case PopAtMutex => s.parts.hand.None?
        case PopInside => s.parts.hand.None?
        case PopUnlock(got) => s.parts.hand.None? && got.Some?
        case PopPost(got) => s.parts.hand.None? && got.Some?
        case _ => false)
  }

  ghost predicate Inv(s: State)
  {
    QueueProtocol.Inv(s.sys) && Roles(s) && s.parts.queue == [] && s.parts.queueMax == s.sys.circle.Max()
  }

  lemma InitInv(s: State)
    requires Init(s)
    ensures Inv(s) && View(s) == s.parts
  {
    QueueProtocol.InitInv(s.sys);
    CircularQueue.FreshIsEmpty<Pipeline.Item>(s.sys.circle.Max());
  }

  /** The step matches: it does nothing to the pipeline, or what one enabled step of it does. */
  ghost predicate Matches(s: State, act: Action)
    requires Enabled(s, act)
  {
    var q := Next(s, act);
    && s.sys.circle.Valid() && q.sys.circle.Valid()
    && match Meaning(s, act)
       case None => View(q) == View(s)
       case Some(a) => Pipeline.Enabled(View(s), a) && View(q) == Pipeline.Next(View(s), a)
  }

  // ----- The receiver's and the sender's own steps -----

  /** The receiver's own steps neither read nor change the queue and the sender's hand. */
  lemma ReceiverApart(p: Pipeline.State, a: Pipeline.Action, queue: seq<Pipeline.Item>, hand: Option<Pipeline.Item>)
    requires Pipeline.Enabled(p, a) && !a.Send? && !a.Take? && Wants(p).None?
    ensures var v := p.(queue := queue, hand := hand); var q := Pipeline.Next(p, a);
      && Pipeline.Enabled(v, a) && Pipeline.Next(v, a) == q.(queue := queue, hand := hand)
      && q.queue == p.queue && q.hand == p.hand && q.queueMax == p.queueMax
  {
    hide Write, FreshName, Pipeline.MustFlush, Spool.Reset, Spool.Detach;
  }

  /** A send depends on the hand, the output and the disk, and changes the first two only. */
  lemma SendApart(p: Pipeline.State, v: Pipeline.State, a: Pipeline.Action)
    requires Pipeline.Enabled(p, a) && a.Send?
    requires v.disk == p.disk && v.hand == p.hand && v.delivered == p.delivered
    ensures Pipeline.Enabled(v, a)
    ensures Pipeline.Next(v, a) == v.(hand := Pipeline.Next(p, a).hand, delivered := Pipeline.Next(p, a).delivered)
  {
    hide SeenBySender, Names.Forward, Spooling.Flat;
  }

  /** What the receiver wants and how it goes on has nothing to do with the sender's side. */
  lemma AnswerApart(p: Pipeline.State, hand: Option<Pipeline.Item>, delivered: Batch, pushed: bool)
    ensures var v := p.(hand := hand, delivered := delivered);
      && Wants(v) == Wants(p)
      && (Wants(p).Some? ==> Answer(v, pushed) == Answer(p, pushed).(hand := hand, delivered := delivered))
  {
    hide Spool.Detach, Pipeline.MustFlush;
  }

  /** Going on touches neither the disk nor anything of the sender, and leaves nothing to push. */
  lemma AnswerKeeps(p: Pipeline.State, pushed: bool)
    requires Wants(p).Some?
    ensures var q := Answer(p, pushed);
      && q.disk == p.disk && q.hand == p.hand && q.delivered == p.delivered
      && q.queue == p.queue && q.queueMax == p.queueMax
  {
  }

  lemma OwnMatches(s: State, a: Pipeline.Action)
    requires Inv(s) && Enabled(s, Own(a))
    ensures Matches(s, Own(a)) && Inv(Next(s, Own(a)))
  {
    hide CircularQueue.Circle.Valid, CircularQueue.Circle.Contents, QueueProtocol.Conserved, QueueProtocol.ResultsGood,
      Pipeline.Next, Pipeline.Enabled, Wants, Answer;
    var p, contents := s.parts, s.sys.circle.Contents();
    if a.Send? {
      SendApart(p, p, a);
      var q := Pipeline.Next(p, a);
      AnswerApart(p, q.hand, q.delivered, true);
      if Wants(p).Some? {
        AnswerKeeps(p, true);
      }
      SendApart(p, View(s), a);
    } else {
      ReceiverApart(p, a, contents, Hand(s));
    }
  }

  // ----- Steps in the queue -----

  /** A push that is in, or timed out, is the pipeline's one step. */
  lemma AnswerIsStep(p: Pipeline.State, pushed: bool, queue: seq<Pipeline.Item>, hand: Option<Pipeline.Item>)
    requires Wants(p).Some? && (pushed ==> |queue| < p.queueMax)
    ensures var v := p.(queue := queue, hand := hand); var a := PushMove(p, pushed);
      && Pipeline.Enabled(v, a)
      && Pipeline.Next(v, a) == Answer(p, pushed).(queue := if pushed then queue + [Wants(p).value] else queue, hand := hand)
  {
    hide Spool.Detach, Pipeline.MustFlush;
  }

  lemma ValidOf(sys: QueueProtocol.System<Pipeline.Item>)
    requires QueueProtocol.Inv(sys)
    ensures sys.circle.Valid()
  {
    hide CircularQueue.Circle.Valid;
  }

  lemma HandApart(p: Pipeline.State)
    ensures forall h :: var v := p.(hand := h);
      && Wants(v) == Wants(p)
      && (Wants(p).Some? ==> Answer(v, true) == Answer(p, true).(hand := h))
  {
    forall h
      ensures var v := p.(hand := h);
        Wants(v) == Wants(p) && (Wants(p).Some? ==> Answer(v, true) == Answer(p, true).(hand := h))
    {
      AnswerApart(p, h, p.delivered, true);
      if Wants(p).Some? {
        AnswerKeeps(p, true);
      }
    }
  }

  /** The receiver's push goes in: the pipeline's step. */
  lemma PushGoesIn(s: State, q: QueueProtocol.Action<Pipeline.Item>)
    requires Inv(s) && Enabled(s, Queue(q)) && q.Step? && q.t == RECEIVER && s.sys.Pc(RECEIVER).PushInside?
    ensures Matches(s, Queue(q)) && Inv(Next(s, Queue(q)))
  {
    hide CircularQueue.Circle.Valid, CircularQueue.Circle.Contents, CircularQueue.Circle.Push, CircularQueue.Circle.Pop,
      QueueProtocol.Conserved, QueueProtocol.ResultsGood, Pipeline.Next, Pipeline.Enabled, Wants, Answer;
    var p, c := s.parts, s.sys.circle;
    QueueProtocol.NextKeeps(s.sys, q);
    QueueProtocol.ValidRange(c);
    QueueProtocol.InsideSucceeds(s.sys, RECEIVER);
    CircularQueue.PushAppends(c, s.sys.Pc(RECEIVER).v);
    AnswerIsStep(p, true, c.Contents(), Hand(s));
  }

  /** The receiver's push times out: the pipeline's step. */
  lemma PushTimesOut(s: State, q: QueueProtocol.Action<Pipeline.Item>)
    requires Inv(s) && Enabled(s, Queue(q)) && q.TimeOut? && q.t == RECEIVER
    ensures Matches(s, Queue(q)) && Inv(Next(s, Queue(q)))
  {
    hide CircularQueue.Circle.Valid, CircularQueue.Circle.Contents, CircularQueue.Circle.Push, CircularQueue.Circle.Pop,
      QueueProtocol.Conserved, QueueProtocol.ResultsGood, Pipeline.Next, Pipeline.Enabled, Wants, Answer;
    QueueProtocol.NextKeeps(s.sys, q);
    AnswerKeeps(s.parts, false);
    AnswerIsStep(s.parts, false, s.sys.circle.Contents(), Hand(s));
  }

  /** The receiver's push returns and the receiver goes on; the pipeline's has already. */
  lemma PushReturns(s: State, q: QueueProtocol.Action<Pipeline.Item>)
    requires Inv(s) && Enabled(s, Queue(q)) && q.Step? && q.t == RECEIVER && s.sys.Pc(RECEIVER).PushPost?
    ensures Matches(s, Queue(q)) && Inv(Next(s, Queue(q)))
  {
    hide QueueProtocol.Inv, CircularQueue.Circle.Valid, CircularQueue.Circle.Contents, CircularQueue.Circle.Push, CircularQueue.Circle.Pop,
      QueueProtocol.Conserved, QueueProtocol.ResultsGood, Pipeline.Next, Pipeline.Enabled, Wants, Answer;
    QueueProtocol.NextKeeps(s.sys, q);
    ValidOf(s.sys);
    ValidOf(QueueProtocol.Next(s.sys, q));
    if Wants(s.parts).Some? {
      AnswerKeeps(s.parts, true);
    }
  }

  /** The other steps of the receiver's push are not seen. */
  lemma PushUnseen(s: State, q: QueueProtocol.Action<Pipeline.Item>)
    requires Inv(s) && Enabled(s, Queue(q)) && q.t == RECEIVER && !q.TimeOut? && !(q.Step? && (s.sys.Pc(RECEIVER).PushInside? || s.sys.Pc(RECEIVER).PushPost?))
    ensures Matches(s, Queue(q)) && Inv(Next(s, Queue(q)))
  {
    hide QueueProtocol.Inv, CircularQueue.Circle.Valid, CircularQueue.Circle.Contents, CircularQueue.Circle.Push, CircularQueue.Circle.Pop,
      QueueProtocol.Conserved, QueueProtocol.ResultsGood, Pipeline.Next, Pipeline.Enabled, Wants, Answer;
    QueueProtocol.NextKeeps(s.sys, q);
    ValidOf(s.sys);
    ValidOf(QueueProtocol.Next(s.sys, q));
    if Wants(s.parts).Some? {
      AnswerKeeps(s.parts, true);
    }
  }

  /** The sender's pop takes a message out: the pipeline's step. */
  lemma PopTakesOut(s: State, q: QueueProtocol.Action<Pipeline.Item>)
    requires Inv(s) && Enabled(s, Queue(q)) && q.Step? && q.t == SENDER && s.sys.Pc(SENDER).PopInside?
    ensures Matches(s, Queue(q)) && Inv(Next(s, Queue(q)))
  {
    hide CircularQueue.Circle.Valid, CircularQueue.Circle.Contents, CircularQueue.Circle.Push, CircularQueue.Circle.Pop,
      QueueProtocol.Conserved, QueueProtocol.ResultsGood, Pipeline.Next, Pipeline.Enabled, Wants, Answer;
    var c := s.sys.circle;
    QueueProtocol.NextKeeps(s.sys, q);
    QueueProtocol.ValidRange(c);
    QueueProtocol.InsideSucceeds(s.sys, SENDER);
    CircularQueue.PopTakesFirst(c);
    HandApart(s.parts);
    var v := View(s);
    assert v.hand.None? && v.queue == c.Contents();
    TakeStep(v);
  }

  lemma TakeStep(v: Pipeline.State)
    requires v.hand.None? && v.queue != []
    ensures Pipeline.Enabled(v, Pipeline.Take)
    ensures Pipeline.Next(v, Pipeline.Take) == v.(hand := Some(v.queue[0]), queue := v.queue[1..])
  {
  }

  /** The sender's pop returns with what it took out; the pipeline had it in hand already. */
  lemma PopReturns(s: State, q: QueueProtocol.Action<Pipeline.Item>)
    requires Inv(s) && Enabled(s, Queue(q)) && q.Step? && q.t == SENDER && s.sys.Pc(SENDER).PopPost?
    ensures Matches(s, Queue(q)) && Inv(Next(s, Queue(q)))
  {
    hide QueueProtocol.Inv, CircularQueue.Circle.Valid, CircularQueue.Circle.Contents, CircularQueue.Circle.Push, CircularQueue.Circle.Pop,
      QueueProtocol.Conserved, QueueProtocol.ResultsGood, Pipeline.Next, Pipeline.Enabled, Wants, Answer;
    QueueProtocol.NextKeeps(s.sys, q);
    ValidOf(s.sys);
    ValidOf(QueueProtocol.Next(s.sys, q));
    HandApart(s.parts);
  }

  /** The other steps of the sender's pop are not seen. */
  lemma PopUnseen(s: State, q: QueueProtocol.Action<Pipeline.Item>)
    requires Inv(s) && Enabled(s, Queue(q)) && q.t == SENDER && !(q.Step? && (s.sys.Pc(SENDER).PopInside? || s.sys.Pc(SENDER).PopPost?))
    ensures Matches(s, Queue(q)) && Inv(Next(s, Queue(q)))
  {
    hide QueueProtocol.Inv, CircularQueue.Circle.Valid, CircularQueue.Circle.Contents, CircularQueue.Circle.Push, CircularQueue.Circle.Pop,
      QueueProtocol.Conserved, QueueProtocol.ResultsGood, Pipeline.Next, Pipeline.Enabled, Wants, Answer;
    QueueProtocol.NextKeeps(s.sys, q);
    ValidOf(s.sys);
    ValidOf(QueueProtocol.Next(s.sys, q));
  }

  lemma StepMatches(s: State, act: Action)
    requires Inv(s) && Enabled(s, act)
    ensures Matches(s, act) && Inv(Next(s, act))
  {
    hide Matches, Inv, Next;
    match act
    case Own(a) => OwnMatches(s, a);
    case Queue(q) =>
      OthersRest(s, q);
      if q.t == RECEIVER {
        if q.TimeOut? {
          PushTimesOut(s, q);
        } else if q.Step? && s.sys.Pc(RECEIVER).PushInside? {
          PushGoesIn(s, q);
        } else if q.Step? && s.sys.Pc(RECEIVER).PushPost? {
          PushReturns(s, q);
        } else {
          PushUnseen(s, q);
        }
      } else if q.Step? && s.sys.Pc(SENDER).PopInside? {
        PopTakesOut(s, q);
      } else if q.Step? && s.sys.Pc(SENDER).PopPost? {
        PopReturns(s, q);
      } else {
        PopUnseen(s, q);
      }
  }

  lemma OthersRest(s: State, q: QueueProtocol.Action<Pipeline.Item>)
    requires Inv(s) && Enabled(s, Queue(q))
    ensures q.t == RECEIVER || q.t == SENDER
  {
    hide QueueProtocol.Inv;
  }

  // ----- Runs -----

  lemma {:induction false} RunKeeps(states: seq<State>, actions: seq<Action>, i: nat)
    requires Run(states, actions) && i <= |actions|
    ensures Inv(states[i]) && states[i].sys.circle.Valid()
  {
    hide Init, Enabled, Next, Roles, CircularQueue.Circle.Valid;
    if i == 0 {
      InitInv(states[0]);
    } else {
      RunKeeps(states, actions, i - 1);
      StepMatches(states[i - 1], actions[i - 1]);
    }
  }

  /** The chunks the receiver got, told from the actions alone. */
  ghost function HeardIn(actions: seq<Action>, i: nat): seq<Chunk>
    requires i <= |actions|
  {
    if i == 0 then []
    else
      var before := HeardIn(actions, i - 1);
      var act := actions[i - 1];
      before + if act.Own? && act.a.Receive? && act.a.got.Some? then [Chunk(|before|, act.a.got.value)] else []
  }

  /** No send is refused by the server or the system, and every spool write succeeds. */
  predicate Benign(s: State, act: Action)
  {
    act.Own? ==> PipelineTheorems.Benign(s.parts, act.a)
  }

  /** What the pipeline's run heard does not change when it goes on with no receive. */
  lemma {:induction false} ReceivedOfPrefix(moves: seq<Pipeline.Action>, a: Pipeline.Action, i: nat)
    requires i <= |moves|
    ensures PipelineTheorems.ReceivedIn(moves + [a], i) == PipelineTheorems.ReceivedIn(moves, i)
  {
    if i > 0 {
      ReceivedOfPrefix(moves, a, i - 1);
    }
  }

  lemma BenignSeen(s: State, act: Action)
    requires Inv(s) && s.sys.circle.Valid() && Enabled(s, act) && Benign(s, act)
    ensures Meaning(s, act).Some? ==> PipelineTheorems.Benign(View(s), Meaning(s, act).value)
  {
    hide CircularQueue.Circle.Valid, CircularQueue.Circle.Contents, QueueProtocol.Inv, QueueProtocol.Next, Write, Answer, SeenBySender;
  }

  /** Every step but the receiver's own means no receive. */
  lemma OnlyOwnReceives(s: State, act: Action)
    ensures act.Own? ==> Meaning(s, act) == Some(act.a)
    ensures act.Queue? && Meaning(s, act).Some? ==> !Meaning(s, act).value.Receive?
  {
  }

  ghost predicate Follows(ps: seq<Pipeline.State>, moves: seq<Pipeline.Action>, s: State, heard: seq<Chunk>)
  {
    && Pipeline.Run(ps, moves) && s.sys.circle.Valid() && ps[|moves|] == View(s)
    && PipelineTheorems.ReceivedIn(moves, |moves|) == heard
  }

  ghost predicate AllBenign(ps: seq<Pipeline.State>, moves: seq<Pipeline.Action>)
  {
    |ps| == |moves| + 1 && forall k :: 0 <= k < |moves| ==> PipelineTheorems.Benign(ps[k], moves[k])
  }

  lemma Extend(ps: seq<Pipeline.State>, moves: seq<Pipeline.Action>, s: State, heard: seq<Chunk>, act: Action)
      returns (qs: seq<Pipeline.State>, bs: seq<Pipeline.Action>)
    requires Follows(ps, moves, s, heard) && Inv(s) && Enabled(s, act)
    ensures var more := if act.Own? && act.a.Receive? && act.a.got.Some? then [Chunk(|heard|, act.a.got.value)] else [];
      Follows(qs, bs, Next(s, act), heard + more)
    ensures AllBenign(ps, moves) && Benign(s, act) ==> AllBenign(qs, bs)
  {
    hide Inv, Next, Enabled, View, Meaning, Pipeline.Init, Pipeline.Enabled, Pipeline.Next, PipelineTheorems.Benign, CircularQueue.Circle.Valid, Benign;
    StepMatches(s, act);
    OnlyOwnReceives(s, act);
    match Meaning(s, act)
    case None =>
      qs, bs := ps, moves;
      assert heard + [] == heard;
    case Some(a) =>
      qs, bs := ps + [View(Next(s, act))], moves + [a];
      ReceivedOfPrefix(moves, a, |moves|);
      if Benign(s, act) {
        BenignSeen(s, act);
      }
  }

  /** Refinement: for every run over the semaphore queue there is a run of the pipeline that receives
      the same chunks and ends in what the run's state stands for; it is benign if the run is. */
  lemma {:induction false} Refines(states: seq<State>, actions: seq<Action>, i: nat)
      returns (ps: seq<Pipeline.State>, moves: seq<Pipeline.Action>)
    requires Run(states, actions) && i <= |actions|
    ensures Follows(ps, moves, states[i], HeardIn(actions, i))
    ensures (forall k :: 0 <= k < i ==> Benign(states[k], actions[k])) ==> AllBenign(ps, moves)
  {
    hide Inv, Next, Enabled, View, Benign, Pipeline.Init, Pipeline.Enabled, Pipeline.Next, Follows, CircularQueue.Circle.Valid;
    if i == 0 {
      ps, moves := [states[0].parts], [];
      StartFollows(states[0]);
    } else {
      ps, moves := Refines(states, actions, i - 1);
      RunKeeps(states, actions, i - 1);
      ps, moves := Extend(ps, moves, states[i - 1], HeardIn(actions, i - 1), actions[i - 1]);
    }
  }

  lemma StartFollows(s: State)
    requires Init(s)
    ensures Follows([s.parts], [], s, [])
  {
    hide Pipeline.Init, QueueProtocol.Init;
    InitInv(s) by { assert Init(s); }
    assert QueueProtocol.Inv(s.sys);
  }

  /** End-to-end order over the semaphore queue: at every moment, in the middle of a push or a pop too,
      what was delivered, held, queued in the array, spooled and buffered are received chunks in the
      order received, none twice, and the array holds at most its maximum. */
  lemma OrderThroughQueue(states: seq<State>, actions: seq<Action>, i: nat)
    requires Run(states, actions) && i <= |actions|
    ensures states[i].sys.circle.Valid()
    ensures Pipeline.InOrder(Pipeline.Everything(View(states[i])), HeardIn(actions, i))
    ensures Pipeline.InOrder(states[i].parts.delivered, HeardIn(actions, i))
    ensures |states[i].sys.circle.Contents()| <= states[i].sys.circle.Max()
  {
    hide Init, Enabled, Next, Pipeline.Run, Pipeline.Everything, Pipeline.InOrder, HeardIn, PipelineTheorems.ReceivedIn, CircularQueue.Circle.Valid, CircularQueue.Circle.Contents;
    var ps, moves := Refines(states, actions, i);
    PipelineTheorems.EndToEndOrder(ps, moves, |moves|);
    SameDelivered(states[i]);
    QueueProtocol.ValidRange(states[i].sys.circle);
  }

  lemma SameDelivered(s: State)
    requires s.sys.circle.Valid()
    ensures View(s).delivered == s.parts.delivered && View(s).queue == s.sys.circle.Contents()
  {
    hide CircularQueue.Circle.Valid, CircularQueue.Circle.Contents, Wants, Answer;
    if Wants(s.parts).Some? {
      AnswerKeeps(s.parts, true);
    }
  }

  /** Conservation over the semaphore queue: while sends succeed or are retried and spool writes
      succeed, every received chunk is delivered or in flight, exactly once. */
  lemma NothingLostThroughQueue(states: seq<State>, actions: seq<Action>, i: nat)
    requires Run(states, actions) && i <= |actions|
    requires forall k :: 0 <= k < i ==> Benign(states[k], actions[k])
    ensures states[i].sys.circle.Valid()
    ensures Pipeline.Everything(View(states[i])) == HeardIn(actions, i)
  {
    hide Init, Enabled, Next, Pipeline.Run, Pipeline.Everything, HeardIn, PipelineTheorems.ReceivedIn, CircularQueue.Circle.Valid, PipelineTheorems.Benign, Benign;
    var ps, moves := Refines(states, actions, i);
    PipelineTheorems.NothingLost(ps, moves, |moves|);
  }

  // ----- Neither thread is ever stuck -----

  predicate ByReceiver(act: Action)
  {
    match act
    case Own(a) => !a.Send? && !a.Take?
    case Queue(q) => q.t == RECEIVER
  }

  ghost predicate CanMove(s: State, receiver: bool)
  {
    exists act :: Enabled(s, act) && ByReceiver(act) == receiver
  }

  /** A thread in the queue can go on, unless the other one holds the mutex, and then that one can. */
  lemma InQueueMoves(s: State, t: nat)
    requires Inv(s) && (t == RECEIVER || t == SENDER) && !s.sys.Pc(t).Idle?
    ensures CanMove(s, t == RECEIVER) || CanMove(s, t != RECEIVER)
    ensures !CanMove(s, t == RECEIVER) ==>
      (s.sys.Pc(t).PushAtMutex? || s.sys.Pc(t).PopAtMutex?) && QueueProtocol.In(s.sys.Pc(if t == RECEIVER then SENDER else RECEIVER), QueueProtocol.Holding)
  {
    hide CircularQueue.Circle.Contents, QueueProtocol.ResultsGood, Wants, Pipeline.Enabled;
    QueueProtocol.ValidRange(s.sys.circle);
    var step, late := Queue(QueueProtocol.Step(t)), Queue(QueueProtocol.TimeOut(t));
    if s.sys.Pc(t).PushEntry? || s.sys.Pc(t).PopEntry? {
      assert Enabled(s, late);
      assert ByReceiver(late) == (t == RECEIVER);
    } else if QueueProtocol.CanStep(s.sys, t) {
      assert Enabled(s, step);
      assert ByReceiver(step) == (t == RECEIVER);
    } else {
      var u :| u in QueueProtocol.Members(s.sys.pcs, QueueProtocol.Holding);
      var other := Queue(QueueProtocol.Step(u));
      assert Enabled(s, other);
      assert ByReceiver(other) == (t != RECEIVER);
    }
  }

  /** In every run the receiver can go on, whatever the queue and the sender do, as long as there is a name
      left for a new file; and so can the sender, unless all it holds is an exhausted name list. The one
      wait is for the mutex, while the other thread is inside and can go on. */
  lemma NeitherStuck(states: seq<State>, actions: seq<Action>, i: nat, at: Attempt)
    requires Run(states, actions) && i <= |actions| && FreshName(states[i].parts.disk, at)
    ensures var s := states[i];
      && (CanMove(s, true) || (s.sys.Pc(RECEIVER).PushAtMutex? && QueueProtocol.In(s.sys.Pc(SENDER), QueueProtocol.Holding) && CanMove(s, false)))
      && (CanMove(s, false)
          || (s.sys.Pc(SENDER).PopAtMutex? && QueueProtocol.In(s.sys.Pc(RECEIVER), QueueProtocol.Holding) && CanMove(s, true))
          || (s.parts.hand.Some? && s.parts.hand.value.Files? && SeenBySender(s.parts.hand.value.names) == []))
  {
    hide Init, Next, Enabled, View, CircularQueue.Circle.Valid, Inv, FreshName, CanMove, QueueProtocol.In, SeenBySender,
      Pipeline.Run, Pipeline.Inv, Roles;
    var s := states[i];
    RunKeeps(states, actions, i);
    var ps, moves := Refines(states, actions, i);
    ViewInv(ps, moves, s, HeardIn(actions, i));
    if s.sys.Pc(RECEIVER).Idle? {
      ReceiverIdleMoves(s, at);
    } else {
      InQueueMoves(s, RECEIVER);
      InPush(s);
    }
    if s.sys.Pc(SENDER).Idle? {
      SenderIdleMoves(s);
    } else {
      InQueueMoves(s, SENDER);
      InPush(s);
    }
  }

  lemma ViewInv(ps: seq<Pipeline.State>, moves: seq<Pipeline.Action>, s: State, heard: seq<Chunk>)
    requires Follows(ps, moves, s, heard)
    ensures s.sys.circle.Valid() && Pipeline.Inv(View(s))
  {
    hide View, CircularQueue.Circle.Valid, Pipeline.Inv, Pipeline.Init, Pipeline.Next, Pipeline.Enabled;
    PipelineSafety.RunKeeps(ps, moves, |moves|);
  }

  /** The receiver only pushes and the sender only pops. */
  lemma InPush(s: State)
    requires Inv(s)
    ensures !s.sys.Pc(RECEIVER).PopAtMutex? && !s.sys.Pc(SENDER).PushAtMutex?
  {
    hide QueueProtocol.Inv, Wants;
  }

  lemma ReceiverIdleMoves(s: State, at: Attempt)
    requires Inv(s) && s.sys.circle.Valid() && Pipeline.Inv(View(s))
    requires s.sys.Pc(RECEIVER).Idle? && FreshName(s.parts.disk, at)
    ensures CanMove(s, true)
  {
    hide CircularQueue.Circle.Contents, QueueProtocol.Inv, SpoolInv, FreshName, Pipeline.SentSettled, Pipeline.RoomInv, Pipeline.InOrder, Pipeline.Everything;
    QueueProtocol.ValidRange(s.sys.circle);
    assert View(s).pc == s.parts.pc && View(s).msg == s.parts.msg;
    var act :=
      if Wants(s.parts).Some? then Queue(QueueProtocol.CallPush(RECEIVER, Wants(s.parts).value, true))
      else match s.parts.pc
        case Top => Own(Pipeline.Select(true))
        case Naming(_) => Own(Pipeline.OfferNames(false))
        case Receiving(_) => Own(Pipeline.Receive(None))
        case Flushing(_) => Own(Pipeline.Flush(false))
        case Spilling => Own(Pipeline.Spill(at));
    assert Enabled(s, act) && ByReceiver(act);
  }

  lemma SenderIdleMoves(s: State)
    requires Inv(s) && s.sys.circle.Valid() && Pipeline.Inv(View(s)) && s.sys.Pc(SENDER).Idle?
    ensures CanMove(s, false)
      || (s.parts.hand.Some? && s.parts.hand.value.Files? && SeenBySender(s.parts.hand.value.names) == [])
  {
    hide CircularQueue.Circle.Contents, QueueProtocol.Inv, SpoolInv, Pipeline.RoomInv, Pipeline.InOrder, Pipeline.Everything, SeenBySender, Wants, Answer;
    QueueProtocol.ValidRange(s.sys.circle);
    if Wants(s.parts).Some? {
      AnswerKeeps(s.parts, true);
    }
    assert View(s).hand == s.parts.hand && View(s).disk == s.parts.disk;
    var act := if s.parts.hand.None? then Queue(QueueProtocol.CallPop(SENDER, true)) else Own(Pipeline.Send(Pipeline.ErrNet));
    if s.parts.hand.Some? && s.parts.hand.value.Files? && SeenBySender(s.parts.hand.value.names) != [] {
      assert SeenBySender(s.parts.hand.value.names)[0] in SeenBySender(s.parts.hand.value.names);
    }
    if s.parts.hand.None? || s.parts.hand.value.Data? || SeenBySender(s.parts.hand.value.names) != [] {
      assert Enabled(s, act) && !ByReceiver(act);
    }
  }

  /** When the receiver turns to the queue, and with what: before it receives, with the pending names if
      there are any; at the end of a turn, with its buffer if that must leave and no names are pending.
      Only without names, or with a buffer that stays or goes to the spool, does it go on by itself. */
  lemma PushesExactly(states: seq<State>, actions: seq<Action>, i: nat, v: Pipeline.Item)
    requires Run(states, actions) && i <= |actions| && states[i].sys.Pc(RECEIVER).Idle?
    ensures var s := states[i]; var p := s.parts;
      var names := p.pc.Naming? && p.spool.names.Some?;
      var buffer := p.pc.Flushing? && p.msg.Some? && p.spool.names.None? && PipelineSteps.MustLeave(p.msg.value, !p.pc.ready);
      && (Enabled(s, Queue(QueueProtocol.CallPush(RECEIVER, v, true))) <==>
            (names && v == Pipeline.Files(p.spool.names.value)) || (buffer && v == Pipeline.Data(p.msg.value.chunks)))
      && (forall pushed :: Enabled(s, Own(Pipeline.OfferNames(pushed))) <==> p.pc.Naming? && !names && !pushed)
      && (forall pushed :: Enabled(s, Own(Pipeline.Flush(pushed))) <==> p.pc.Flushing? && !buffer && !pushed)
  {
    hide Init, Next, Enabled, View, CircularQueue.Circle.Valid, Inv, Pipeline.Inv, Pipeline.Run;
    var s := states[i];
    RunKeeps(states, actions, i);
    var ps, moves := Refines(states, actions, i);
    ViewInv(ps, moves, s, HeardIn(actions, i));
    IdlePushes(s, v);
  }

  lemma IdlePushes(s: State, v: Pipeline.Item)
    requires Inv(s) && s.sys.circle.Valid() && Pipeline.Inv(View(s)) && s.sys.Pc(RECEIVER).Idle?
    ensures var p := s.parts;
      var names := p.pc.Naming? && p.spool.names.Some?;
      var buffer := p.pc.Flushing? && p.msg.Some? && p.spool.names.None? && PipelineSteps.MustLeave(p.msg.value, !p.pc.ready);
      && (Enabled(s, Queue(QueueProtocol.CallPush(RECEIVER, v, true))) <==>
            (names && v == Pipeline.Files(p.spool.names.value)) || (buffer && v == Pipeline.Data(p.msg.value.chunks)))
      && (forall pushed :: Enabled(s, Own(Pipeline.OfferNames(pushed))) <==> p.pc.Naming? && !names && !pushed)
      && (forall pushed :: Enabled(s, Own(Pipeline.Flush(pushed))) <==> p.pc.Flushing? && !buffer && !pushed)
  {
    hide CircularQueue.Circle.Contents, QueueProtocol.Inv, SpoolInv, FreshName, Pipeline.SentSettled, Pipeline.RoomInv, Pipeline.InOrder, Pipeline.Everything;
    QueueProtocol.ValidRange(s.sys.circle);
    assert View(s).pc == s.parts.pc && View(s).msg == s.parts.msg && View(s).spool == s.parts.spool;
  }
}
