/** Receiver, queue and sender as a step system, before quit is notified. The receiver's loop is cut
    at its operations on the queue, the socket and the spool; the sender may move in between. The
    queue is a bounded first-in first-out list, a push or a pop one step; QueuedPipeline refines it to
    the semaphore queue. */
module Pipeline {
  import opened NameList
  import opened Wrappers
  import opened Spooling

  const MAX_BUFF_SIZE: nat := 4096

  /** The current message of the receiver; `chunks` is what its `len` bytes are made of. */
  datatype Buffer = Buffer(kind: int, chunks: Batch, len: int, cap: int)

  /** A message in the queue: data, or a packed list of file names. */
  datatype Item = Data(chunks: Batch) | Files(names: Names)

  datatype Pc = Top | Naming(ready: bool) | Receiving(ready: bool) | Flushing(ready: bool) | Spilling

  datatype Outcome = Success | ErrSys | ErrNet | ErrSrv

  datatype State = State(
    nodeSize: nat, queueMax: nat, received: seq<Chunk>,
    pc: Pc, msg: Option<Buffer>, spool: Spool, disk: Disk,
    queue: seq<Item>, hand: Option<Item>, delivered: Batch, overflow: bool)

  datatype Action =
    | Select(ready: bool)
    | OfferNames(pushed: bool)
    | Receive(got: Option<nat>)
    | Flush(pushed: bool)
    | Spill(a: Attempt)
    | Take
    | Send(outcome: Outcome)

  ghost predicate Init(s: State)
  {
    && s.nodeSize >= MAX_BUFF_SIZE + 1 && s.queueMax >= 1
    && s.received == [] && s.pc == Top && s.msg == None && s.disk == map[]
    && (exists c, z :: c >= 1 && s.spool == Start(c, z))
    && s.queue == [] && s.hand == None && s.delivered == [] && !s.overflow
  }

  predicate MustFlush(b: Buffer, ready: bool)
  {
    b.len > 0 && (!ready || b.cap - b.len < MAX_BUFF_SIZE + 1)
  }

  /** A push may time out at any moment; it succeeds only when the queue has a free place. A new spool
      file's name is fresh. */
  predicate Enabled(s: State, a: Action)
  {
    match a
    case Select(_) => s.pc.Top?
    case OfferNames(pushed) => s.pc.Naming? && s.msg.Some? && (pushed ==> s.spool.names.Some? && |s.queue| < s.queueMax)
    case Receive(got) => s.pc.Receiving? && s.msg.Some? && (got.Some? ==> s.pc.ready && got.value <= MAX_BUFF_SIZE)
    case Flush(pushed) => s.pc.Flushing? && s.msg.Some? &&
      (pushed ==> MustFlush(s.msg.value, s.pc.ready) && s.msg.value.kind == 0 && |s.queue| < s.queueMax)
    case Spill(at) => s.pc.Spilling? && s.msg.Some? && FreshName(s.disk, at)
    case Take => s.hand.None? && s.queue != []
    case Send(_) => s.hand.Some? && (s.hand.value.Files? ==>
      SeenBySender(s.hand.value.names) != [] && SeenBySender(s.hand.value.names)[0] in s.disk)
  }

  function NewBuffer(cap: nat): Buffer { Buffer(0, [], 0, cap) }

  function OfferStep(s: State, pushed: bool): State
    requires s.pc.Naming? && s.msg.Some? && (pushed ==> s.spool.names.Some?)
  {
    var t := s.(pc := Receiving(s.pc.ready));
    if s.spool.names.None? then t
    else if pushed then
      t.(queue := s.queue + [Files(s.spool.names.value)], spool := s.spool.Detach(), msg := Some(s.msg.value.(kind := 0)))
    else t.(msg := Some(s.msg.value.(kind := 1)))
  }

  /** The receive writes up to MAX_BUFF_SIZE bytes after `len`; less room than that is an overflow. */
  function ReceiveStep(s: State, got: Option<nat>): State
    requires s.pc.Receiving? && s.msg.Some?
  {
    var b := s.msg.value;
    var t := s.(pc := Flushing(s.pc.ready), overflow := s.overflow || (s.pc.ready && b.len + MAX_BUFF_SIZE > s.nodeSize));
    if got.None? then t
    else
      var c := Chunk(|s.received|, got.value);
      t.(received := s.received + [c], msg := Some(b.(chunks := b.chunks + [c], len := b.len + got.value)))
  }

  function FlushStep(s: State, pushed: bool): State
    requires s.pc.Flushing? && s.msg.Some?
  {
    var b := s.msg.value;
    if !MustFlush(b, s.pc.ready) then s.(pc := Top)
    else if b.kind == 0 then
      if pushed then s.(pc := Top, queue := s.queue + [Data(b.chunks)], msg := None)
      else s.(pc := Spilling, msg := Some(b.(kind := 1)))
    else if b.kind == 1 then s.(pc := Spilling)
    else s.(pc := Top)
  }

  /** Write the message to the spool and zero it, its `cap` included; or drop it and the open file. */
  function SpillStep(s: State, a: Attempt): State
    requires s.msg.Some?
  {
    var w := Write(s.spool, s.disk, s.msg.value.chunks, a);
    if w.ok then s.(pc := Top, spool := w.spool, disk := w.disk, msg := Some(Buffer(0, [], 0, 0)))
    else s.(pc := Top, spool := w.spool.Reset(), disk := w.disk, msg := None)
  }

  function SendStep(s: State, outcome: Outcome): State
    requires s.hand.Some?
    requires s.hand.value.Files? ==> SeenBySender(s.hand.value.names) != []
  {
    match s.hand.value
    case Data(chunks) =>
      (match outcome
       case Success => s.(delivered := s.delivered + chunks, hand := None)
       case ErrNet => s
       case _ => s.(hand := None))
    case Files(m) =>
      var n := SeenBySender(m)[0];
      (match outcome
       case Success => s.(delivered := s.delivered + (if n in s.disk then Flat(s.disk[n]) else []), hand := Some(Files(m.Forward())))
       case ErrNet => s
       case _ => s.(hand := Some(Files(m.Forward()))))
  }

  function Next(s: State, a: Action): State
    requires Enabled(s, a)
  {
    match a
    case Select(ready) => s.(pc := Naming(ready), msg := if s.msg.None? then Some(NewBuffer(s.nodeSize)) else s.msg)
    case OfferNames(pushed) => OfferStep(s, pushed)
    case Receive(got) => ReceiveStep(s, got)
    case Flush(pushed) => FlushStep(s, pushed)
    case Spill(at) => SpillStep(s, at)
    case Take => s.(hand := Some(s.queue[0]), queue := s.queue[1..])
    case Send(outcome) => SendStep(s, outcome)
  }

  ghost predicate Run(states: seq<State>, actions: seq<Action>)
  {
    && |states| == |actions| + 1
    && Init(states[0])
    && forall i :: 0 <= i < |actions| ==> Enabled(states[i], actions[i]) && states[i + 1] == Next(states[i], actions[i])
  }

  // ----- Everything in flight, oldest first -----

  function Expand(i: Item, disk: Disk): Batch
  {
    match i
    case Data(chunks) => chunks
    case Files(m) => TextOfFiles(disk, SeenBySender(m))
  }

  function ExpandAll(q: seq<Item>, disk: Disk): Batch
  {
    if q == [] then [] else ExpandAll(q[..|q| - 1], disk) + Expand(q[|q| - 1], disk)
  }

  /** What has left the receiver: delivered, in the sender's hand, queued. */
  function Sent(s: State): Batch
  {
    s.delivered + (if s.hand.Some? then Expand(s.hand.value, s.disk) else []) + ExpandAll(s.queue, s.disk)
  }

  function Current(m: Option<Buffer>): Batch { if m.Some? then m.value.chunks else [] }

  function Everything(s: State): Batch { Sent(s) + Text(s.spool, s.disk) + Current(s.msg) }

  /** A sequence of chunks that are among the received ones, in the order received, each at most once. */
  ghost predicate InOrder(b: Batch, received: seq<Chunk>)
  {
    && (forall i :: 0 <= i < |b| ==> b[i].id < |received| && received[b[i].id] == b[i])
    && (forall i, j :: 0 <= i < j < |b| ==> b[i].id < b[j].id)
  }

  // ----- The invariant -----

  /** No file of a list that left the receiver is the open one, and all of them exist. */
  ghost predicate Settled(i: Item, disk: Disk, open: Option<Name>)
  {
    i.Files? ==> forall n :: n in SeenBySender(i.names) ==> n in disk && open != Some(n)
  }

  ghost predicate SentSettled(queue: seq<Item>, hand: Option<Item>, disk: Disk, open: Option<Name>)
  {
    && (forall i :: i in queue ==> Settled(i, disk, open))
    && (hand.Some? ==> Settled(hand.value, disk, open))
  }

  /** Outside the top of the loop the message goes to the spool exactly when a name list is pending. */
  ghost predicate GateInv(pc: Pc, msg: Option<Buffer>, pending: bool)
  {
    && (!pc.Top? ==> msg.Some?)
    && (msg.Some? ==> 0 <= msg.value.kind <= 1)
    && (pc.Receiving? || pc.Flushing? ==> msg.value.kind == if pending then 1 else 0)
    && (pc.Spilling? ==> msg.value.kind == 1)
    && (pc.Top? || pc.Naming? ==> msg.Some? && !pending ==> msg.value.kind == 0)
  }

  /** Either the buffer knows its size and has a receive's room left, or it was zeroed and is empty;
      after a receive it has at most one receive more. */
  ghost predicate RoomInv(pc: Pc, msg: Option<Buffer>, nodeSize: nat)
  {
    msg.Some? ==>
      var b := msg.value;
      && b.len == Size(b.chunks)
      && nodeSize >= MAX_BUFF_SIZE + 1
      && (!pc.Flushing? && !pc.Spilling? ==>
            (b.cap == nodeSize && b.cap - b.len >= MAX_BUFF_SIZE + 1) || (b.cap == 0 && b.len == 0))
      && (pc.Flushing? ==> b.len <= nodeSize && (b.cap == nodeSize || b.cap == 0))
      && (pc.Spilling? ==> b.len > 0)
  }

  ghost predicate Inv(s: State)
  {
    && !s.overflow && |s.queue| <= s.queueMax
    && SpoolInv(s.spool, s.disk)
    && SentSettled(s.queue, s.hand, s.disk, s.spool.open)
    && GateInv(s.pc, s.msg, s.spool.names.Some?)
    && RoomInv(s.pc, s.msg, s.nodeSize)
    && s.nodeSize >= MAX_BUFF_SIZE + 1
    && InOrder(Everything(s), s.received)
  }
}
