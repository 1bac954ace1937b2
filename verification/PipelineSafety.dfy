/** What every reachable state of the pipeline keeps, and the order theorem. */
module PipelineSafety {
  import opened NameList
  import opened Wrappers
  import opened Spooling
  import opened Pipeline

  // ----- Order -----

  lemma OrderDrop(a: Batch, b: Batch, c: Batch, rec: seq<Chunk>)
    requires InOrder(a + b + c, rec)
    ensures InOrder(a + c, rec)
  {
    var all, few := a + b + c, a + c;
    forall i | 0 <= i < |few|
      ensures few[i] == all[if i < |a| then i else i + |b|]
    {
    }
  }

  lemma OrderGrow(a: Batch, rec: seq<Chunk>, size: nat)
    requires InOrder(a, rec)
    ensures InOrder(a + [Chunk(|rec|, size)], rec + [Chunk(|rec|, size)])
  {
  }

  lemma OrderPrefix(a: Batch, b: Batch, rec: seq<Chunk>)
    requires InOrder(b, rec) && a <= b
    ensures InOrder(a, rec)
  {
    assert forall i :: 0 <= i < |a| ==> a[i] == b[i];
  }

  // ----- Expansion -----

  lemma ExpandFrame(i: Item, disk: Disk, disk': Disk, open: Option<Name>)
    requires Settled(i, disk, open)
    requires forall n :: n in disk ==> n in disk' && (open != Some(n) ==> disk'[n] == disk[n])
    ensures Expand(i, disk') == Expand(i, disk)
  {
    if i.Files? {
      TextFrame(disk, disk', SeenBySender(i.names));
    }
  }

  lemma {:induction false} ExpandAllFrame(q: seq<Item>, disk: Disk, disk': Disk, open: Option<Name>)
    requires forall i :: i in q ==> Settled(i, disk, open)
    requires forall n :: n in disk ==> n in disk' && (open != Some(n) ==> disk'[n] == disk[n])
    ensures ExpandAll(q, disk') == ExpandAll(q, disk)
  {
    hide Settled, Expand;
    if q != [] {
      var front := q[..|q| - 1];
      assert forall i :: i in front ==> i in q;
      ExpandAllFrame(front, disk, disk', open);
      assert q[|q| - 1] in q;
      ExpandFrame(q[|q| - 1], disk, disk', open);
    }
  }

  lemma ExpandSnoc(q: seq<Item>, i: Item, disk: Disk)
    ensures ExpandAll(q + [i], disk) == ExpandAll(q, disk) + Expand(i, disk)
  {
    assert (q + [i])[..|q|] == q;
  }

  lemma {:induction false} ExpandCons(q: seq<Item>, disk: Disk)
    requires q != []
    ensures ExpandAll(q, disk) == Expand(q[0], disk) + ExpandAll(q[1..], disk)
  {
    hide Expand, ExpandAll;
    if |q| == 1 {
      assert q == [] + [q[0]];
      ExpandSnoc([], q[0], disk);
      ExpandNil(disk);
    } else {
      var front := q[..|q| - 1];
      ExpandCons(front, disk);
      assert q[1..] == front[1..] + [q[|q| - 1]];
      ExpandSnoc(front[1..], q[|q| - 1], disk);
      assert q == front + [q[|q| - 1]];
      ExpandSnoc(front, q[|q| - 1], disk);
    }
  }

  lemma ExpandNil(disk: Disk)
    ensures ExpandAll([], disk) == []
  {
  }

  // ----- Receiver steps -----

  lemma SelectKeeps(s: State, ready: bool)
    requires Inv(s) && Enabled(s, Select(ready))
    ensures Inv(Next(s, Select(ready)))
    ensures Everything(Next(s, Select(ready))) == Everything(s)
  {
    hide SpoolInv, SentSettled, InOrder, Sent, Text;
    SentParts(Next(s, Select(ready)), s);
    assert Everything(Next(s, Select(ready))) == Everything(s);
  }

  lemma OfferKeeps(s: State, pushed: bool)
    requires Inv(s) && Enabled(s, OfferNames(pushed))
    ensures Inv(Next(s, OfferNames(pushed)))
    ensures Everything(Next(s, OfferNames(pushed))) == Everything(s)
  {
    hide SpoolInv, SentSettled, InOrder, ExpandAll, TextOfFiles, SeenBySender, Size;
    var q := Next(s, OfferNames(pushed));
    if s.spool.names.Some? && pushed {
      var i := Files(s.spool.names.value);
      DetachKeeps(s.spool, s.disk);
      ExpandSnoc(s.queue, i, s.disk);
      assert Text(s.spool, s.disk) == Expand(i, s.disk);
      assert Text(q.spool, q.disk) == [] by { TextNil(s.disk); }
      assert Everything(q) == Everything(s);
      OfferSettles(s, i);
    } else {
      assert Everything(q) == Everything(s);
    }
  }

  /** Once detached, nothing is open, so every listed file is settled. */
  lemma OfferSettles(s: State, i: Item)
    requires SpoolInv(s.spool, s.disk) && SentSettled(s.queue, s.hand, s.disk, s.spool.open)
    requires s.spool.names.Some? && i == Files(s.spool.names.value)
    ensures SentSettled(s.queue + [i], s.hand, s.disk, None)
  {
    hide ListInv, Total, SeenBySender;
  }

  lemma SizeSnoc(b: Batch, c: Chunk)
    ensures Size(b + [c]) == Size(b) + c.size
  {
    assert (b + [c])[..|b|] == b;
  }

  lemma ReceiveKeeps(s: State, got: Option<nat>)
    requires Inv(s) && Enabled(s, Receive(got))
    ensures Inv(Next(s, Receive(got)))
    ensures Everything(Next(s, Receive(got))) == Everything(s) + if got.Some? then [Chunk(|s.received|, got.value)] else []
  {
    hide SpoolInv, SentSettled, InOrder, Sent, Text, Size;
    var q := Next(s, Receive(got));
    SentParts(q, s);
    if got.Some? {
      var c := Chunk(|s.received|, got.value);
      SizeSnoc(s.msg.value.chunks, c);
      OrderGrow(Everything(s), s.received, got.value);
      assert Everything(q) == Everything(s) + [c];
    } else {
      assert Everything(q) == Everything(s);
    }
  }

  lemma FlushKeeps(s: State, pushed: bool)
    requires Inv(s) && Enabled(s, Flush(pushed))
    ensures Inv(Next(s, Flush(pushed)))
    ensures Everything(Next(s, Flush(pushed))) == Everything(s)
  {
    hide SpoolInv, InOrder, ExpandAll, Size, Settled, Text;
    var q := Next(s, Flush(pushed));
    if pushed {
      assert s.spool.names.None?;
      var i := Data(s.msg.value.chunks);
      ExpandSnoc(s.queue, i, s.disk);
      assert Settled(i, s.disk, s.spool.open) by { DataSettled(i.chunks, s.disk, s.spool.open); }
      assert Text(s.spool, s.disk) == [] by { NoText(s.spool, s.disk); }
    }
    assert Everything(q) == Everything(s);
  }

  lemma DataSettled(b: Batch, disk: Disk, open: Option<Name>)
    ensures Settled(Data(b), disk, open)
  {
  }

  lemma NoText(s: Spool, disk: Disk)
    requires s.names.None?
    ensures Text(s, disk) == []
  {
    TextNil(disk);
  }

  lemma WriteSettles(s: State, a: Attempt, open: Option<Name>)
    requires SentSettled(s.queue, s.hand, s.disk, s.spool.open)
    requires SpoolInv(s.spool, s.disk) && FreshName(s.disk, a) && s.msg.Some?
    requires open == s.spool.open || open == Some(a.name) || open.None?
    ensures SentSettled(s.queue, s.hand, Write(s.spool, s.disk, s.msg.value.chunks, a).disk, open)
  {
    hide SpoolInv, SeenBySender, Write;
    WriteTouches(s.spool, s.disk, s.msg.value.chunks, a);
  }

  lemma SentFrame(s: State, a: Attempt)
    requires SentSettled(s.queue, s.hand, s.disk, s.spool.open)
    requires SpoolInv(s.spool, s.disk) && FreshName(s.disk, a) && s.msg.Some?
    ensures Sent(s.(disk := Write(s.spool, s.disk, s.msg.value.chunks, a).disk)) == Sent(s)
  {
    hide SpoolInv, SeenBySender, Write, ExpandAll, Expand, Settled;
    var disk' := Write(s.spool, s.disk, s.msg.value.chunks, a).disk;
    WriteTouches(s.spool, s.disk, s.msg.value.chunks, a);
    ExpandAllFrame(s.queue, s.disk, disk', s.spool.open);
    if s.hand.Some? {
      ExpandFrame(s.hand.value, s.disk, disk', s.spool.open);
    }
  }

  lemma SpillOrder(s: State, a: Attempt)
    requires Inv(s) && Enabled(s, Spill(a))
    ensures InOrder(Everything(Next(s, Spill(a))), s.received)
    ensures Write(s.spool, s.disk, s.msg.value.chunks, a).ok && (s.spool.names.Some? ==> s.spool.listed != []) ==>
      Everything(Next(s, Spill(a))) == Everything(s)
  {
    hide SpoolInv, InOrder, Write, Text, SentSettled, Sent, Size, Spool.Reset;
    var q := Next(s, Spill(a));
    var b := s.msg.value.chunks;
    var w := Write(s.spool, s.disk, b, a);
    var sent, text := Sent(s), Text(s.spool, s.disk);
    SentFrame(s, a);
    assert Sent(q) == sent by { SentParts(q, s.(disk := w.disk)); }
    if w.ok {
      WriteText(s.spool, s.disk, b, a);
      if s.spool.names.None? {
        NoText(s.spool, s.disk);
      }
      SpillText(sent, text, b, Text(w.spool, w.disk), s.received);
    } else {
      FailText(s.spool, s.disk, b, a);
      SpillText(sent, text, b, Text(w.spool.Reset(), w.disk), s.received);
    }
  }

  /** The order survives when the spooled text takes the message in, is replaced by it, or is cut. */
  lemma SpillText(sent: Batch, text: Batch, b: Batch, text': Batch, rec: seq<Chunk>)
    requires InOrder(sent + text + b, rec)
    requires text' == text + b || text' == b || text' <= text
    ensures InOrder(sent + text' + [], rec)
    ensures text' == text + b ==> sent + text' + [] == sent + text + b
    ensures text == [] && text' == b ==> sent + text' + [] == sent + text + b
  {
    hide InOrder;
    assert sent + text' + [] == sent + text';
    assert sent + (text + b) == sent + text + b;
    if text' == text + b {
    } else if text' == b {
      OrderDrop(sent, text, b, rec);
    } else {
      assert sent + text' <= sent + text + b;
      OrderPrefix(sent + text', sent + text + b, rec);
    }
  }

  lemma SentParts(s: State, t: State)
    requires s.queue == t.queue && s.hand == t.hand && s.disk == t.disk && s.delivered == t.delivered
    ensures Sent(s) == Sent(t)
  {
  }

  lemma SpillKeeps(s: State, a: Attempt)
    requires Inv(s) && Enabled(s, Spill(a))
    ensures Inv(Next(s, Spill(a)))
  {
    hide SpoolInv, InOrder, Write, Everything, SentSettled, Size, Spool.Reset;
    SpillOrder(s, a);
    var b := s.msg.value.chunks;
    var w := Write(s.spool, s.disk, b, a);
    WriteKeeps(s.spool, s.disk, b, a);
    WriteTouches(s.spool, s.disk, b, a);
    assert Size([]) == 0 by { SizeNil(); }
    if w.ok {
      WriteSettles(s, a, w.spool.open);
    } else {
      ResetKeeps(w.spool, w.disk);
      WriteSettles(s, a, w.spool.Reset().open) by { ResetOpen(w.spool); }
    }
  }

  lemma SizeNil()
    ensures Size([]) == 0
  {
  }

  lemma ResetOpen(s: Spool)
    ensures s.Reset().open.None?
  {
  }

  // ----- Sender steps -----

  lemma TakeKeeps(s: State)
    requires Inv(s) && Enabled(s, Take)
    ensures Inv(Next(s, Take))
    ensures Everything(Next(s, Take)) == Everything(s)
  {
    hide SpoolInv, InOrder, Text, ExpandAll, Expand, Settled, Size;
    ExpandCons(s.queue, s.disk);
    assert s.queue[0] in s.queue;
    assert forall i :: i in s.queue[1..] ==> i in s.queue;
    assert Everything(Next(s, Take)) == Everything(s);
  }

  lemma WalkSteps(m: Names)
    requires SeenBySender(m) != []
    ensures 0 <= m.len <= |m.data| && m.data != []
    ensures SeenBySender(m) == [SeenBySender(m)[0]] + SeenBySender(m.Forward())
  {
    hide StrLen;
    assert 0 <= m.len <= |m.data| && m.data != [];
    assert SeenBySender(m) == m.Walk();
    assert SeenBySender(m.Forward()) == m.Forward().Walk();
  }

  lemma {:induction false} TextCons(disk: Disk, names: seq<Name>)
    requires names != []
    ensures TextOfFiles(disk, names) == (if names[0] in disk then Flat(disk[names[0]]) else []) + TextOfFiles(disk, names[1..])
  {
    hide Flat, TextOfFiles;
    if |names| == 1 {
      assert names == [] + [names[0]];
      TextSnoc(disk, [], names[0]);
      TextNil(disk);
    } else {
      var front := names[..|names| - 1];
      TextCons(disk, front);
      assert names[1..] == front[1..] + [names[|names| - 1]];
      TextSnoc(disk, front[1..], names[|names| - 1]);
      assert names == front + [names[|names| - 1]];
      TextSnoc(disk, front, names[|names| - 1]);
    }
  }

  lemma SendFileOrder(s: State, outcome: Outcome)
    requires InOrder(Everything(s), s.received)
    requires Enabled(s, Send(outcome)) && s.hand.value.Files? && !outcome.ErrNet?
    ensures InOrder(Everything(Next(s, Send(outcome))), s.received)
    ensures outcome.Success? ==> Everything(Next(s, Send(outcome))) == Everything(s)
  {
    hide InOrder, SeenBySender, TextOfFiles, Flat, Names.Forward;
    var q := Next(s, Send(outcome));
    var seen := SeenBySender(s.hand.value.names);
    WalkSteps(s.hand.value.names);
    TextCons(s.disk, seen);
    assert seen[1..] == SeenBySender(s.hand.value.names.Forward());
    var first := if seen[0] in s.disk then Flat(s.disk[seen[0]]) else [];
    WithFiles(s);
    WithFiles(q);
    assert Rest(q) == Rest(s);
    SendOrder(s.delivered, first, TextOfFiles(s.disk, seen[1..]), Rest(s), s.received,
      Everything(s), Everything(q), outcome.Success?) by { hide Everything, Rest; }
  }

  /** What comes after the message in the sender's hand. */
  function Rest(s: State): Batch { ExpandAll(s.queue, s.disk) + Text(s.spool, s.disk) + Current(s.msg) }

  lemma WithFiles(s: State)
    requires s.hand.Some? && s.hand.value.Files?
    ensures Everything(s) == s.delivered + TextOfFiles(s.disk, SeenBySender(s.hand.value.names)) + Rest(s)
  {
    hide SeenBySender, TextOfFiles, ExpandAll, Text;
  }

  lemma Assoc(a: Batch, b: Batch, c: Batch)
    ensures a + (b + c) == a + b + c
  {
  }

  lemma SendOrder(a: Batch, b: Batch, c: Batch, d: Batch, rec: seq<Chunk>, before: Batch, after: Batch, success: bool)
    requires before == a + (b + c) + d && after == if success then (a + b) + c + d else a + c + d
    requires InOrder(before, rec)
    ensures InOrder(after, rec)
    ensures success ==> after == before
  {
    hide InOrder;
    Assoc(a, b, c);
    if !success {
      Assoc(a + b, c, d);
      Assoc(a, c, d);
      OrderDrop(a, b, c + d, rec);
    }
  }

  lemma ForwardSettles(m: Names, disk: Disk, open: Option<Name>)
    requires Settled(Files(m), disk, open) && SeenBySender(m) != []
    ensures Settled(Files(m.Forward()), disk, open)
  {
    hide SeenBySender, Names.Forward;
    WalkSteps(m);
    var seen := SeenBySender(m);
    assert forall n :: n in SeenBySender(m.Forward()) ==> n in seen;
  }

  lemma SendFileKeeps(s: State, outcome: Outcome)
    requires Inv(s) && Enabled(s, Send(outcome)) && s.hand.value.Files? && !outcome.ErrNet?
    ensures Inv(Next(s, Send(outcome)))
    ensures outcome.Success? ==> Everything(Next(s, Send(outcome))) == Everything(s)
  {
    hide SpoolInv, InOrder, Everything, SeenBySender, Flat, Size, Settled, Names.Forward;
    SendFileOrder(s, outcome);
    ForwardSettles(s.hand.value.names, s.disk, s.spool.open);
  }

  lemma SendDataKeeps(s: State, outcome: Outcome)
    requires Inv(s) && Enabled(s, Send(outcome)) && s.hand.value.Data? && !outcome.ErrNet?
    ensures Inv(Next(s, Send(outcome)))
    ensures outcome.Success? ==> Everything(Next(s, Send(outcome))) == Everything(s)
  {
    hide SpoolInv, InOrder, Text, ExpandAll, Size;
    var q := Next(s, Send(outcome));
    var b := s.hand.value.chunks;
    var rest := ExpandAll(s.queue, s.disk) + Text(s.spool, s.disk) + Current(s.msg);
    assert Everything(s) == s.delivered + b + rest;
    if outcome.Success? {
      assert Everything(q) == s.delivered + b + rest;
    } else {
      assert Everything(q) == s.delivered + rest;
      OrderDrop(s.delivered, b, rest, s.received);
    }
  }

  lemma NextKeeps(s: State, a: Action)
    requires Inv(s) && Enabled(s, a)
    ensures Inv(Next(s, a))
  {
    hide Inv, SeenBySender, Write, MustFlush;
    match a
    case Select(ready) => SelectKeeps(s, ready);
    case OfferNames(pushed) => OfferKeeps(s, pushed);
    case Receive(got) => ReceiveKeeps(s, got);
    case Flush(pushed) => FlushKeeps(s, pushed);
    case Spill(at) => SpillKeeps(s, at);
    case Take => TakeKeeps(s);
    case Send(outcome) =>
      if outcome.ErrNet? {
      } else if s.hand.value.Files? {
        SendFileKeeps(s, outcome);
      } else {
        SendDataKeeps(s, outcome);
      }
  }

  lemma InitInv(s: State)
    requires Init(s)
    ensures Inv(s)
  {
    var c, z :| c >= 1 && s.spool == Start(c, z);
    StartInv(c, z);
    NoText(s.spool, s.disk);
    ExpandNil(s.disk);
    assert Everything(s) == [];
  }

  lemma {:induction false} RunKeeps(states: seq<State>, actions: seq<Action>, i: nat)
    requires Run(states, actions) && i < |states|
    ensures Inv(states[i])
  {
    hide Inv, Next, Enabled, Init;
    if i == 0 {
      InitInv(states[0]);
    } else {
      RunKeeps(states, actions, i - 1);
      NextKeeps(states[i - 1], actions[i - 1]);
    }
  }
}
