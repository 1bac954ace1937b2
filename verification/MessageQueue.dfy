/** The message queue object: the circular array and its three semaphores, updated in place. The
    calls here run with no other thread in between; QueueProtocol interleaves them. */
module MessageQueue {
  import opened Wrappers
  import opened CircularQueue

  class Queue<T(0)> {
    const cirq: array<Option<T>>
    var wpos: int
    var rpos: int
    var size: int
    var mutex: nat
    var nempty: nat
    var nstored: nat

    ghost function View(): Circle<T>
      reads this, cirq
    {
      Circle(cirq[..], wpos, rpos, size)
    }

    /** Nobody is inside a call. */
    ghost predicate Quiet()
      reads this, cirq
    {
      View().Valid() && mutex == 1 && nstored == size && nempty + nstored == cirq.Length
    }

    constructor (max: nat)
      requires max >= 1
      ensures Quiet() && View() == Fresh(max) && View().Contents() == [] && fresh(cirq)
    {
      cirq := new Option<T>[max](i => None);
      wpos, rpos, size := -1, 0, 0;
      mutex, nempty, nstored := 1, max, 0;
      new;
      FreshIsEmpty<T>(max);
      assert View() == Fresh(max);
    }

    method CirclePush(v: T) returns (r: int)
      requires View().Valid()
      modifies this`wpos, this`size, cirq
      ensures (View(), r) == old(View()).Push(v) && View().Valid()
      ensures old(size) < cirq.Length ==> r == 0 && View().Contents() == old(View().Contents()) + [v]
      ensures old(size) == cirq.Length ==> r == -1 && View() == old(View())
    {
      PushAppends(View(), v);
      var pos := (wpos + 1) % cirq.Length;
      if size >= cirq.Length {
        return -1;
      }
      cirq[pos] := Some(v);
      wpos := pos;
      size := size + 1;
      r := 0;
    }

    method CirclePop() returns (v: Option<T>)
      requires View().Valid()
      modifies this`rpos, this`size, cirq
      ensures (View(), v) == old(View()).Pop() && View().Valid()
      ensures old(size) > 0 ==> v == Some(old(View().Contents())[0]) && View().Contents() == old(View().Contents())[1..]
      ensures old(size) == 0 ==> v.None? && View() == old(View())
    {
      PopTakesFirst(View());
      if size <= 0 {
        return None;
      }
      v := cirq[rpos];
      cirq[rpos] := None;
      rpos := (rpos + 1) % cirq.Length;
      size := size - 1;
    }

    /** A timed push appends when there is a free place and reports a time-out when there is none. */
    method PushWait(v: T) returns (r: int)
      requires Quiet()
      modifies this, cirq
      ensures Quiet()
      ensures old(nempty) > 0 ==> r == 0 && View().Contents() == old(View().Contents()) + [v]
      ensures old(nempty) == 0 ==> r == 1 && View() == old(View())
    {
      if nempty == 0 {
        return 1;
      }
      nempty := nempty - 1;
      mutex := mutex - 1;
      r := CirclePush(v);
      mutex := mutex + 1;
      nstored := nstored + 1;
    }

    /** A timed pop takes the oldest message, or returns NULL when there is none. */
    method PopWait() returns (v: Option<T>)
      requires Quiet()
      modifies this, cirq
      ensures Quiet()
      ensures old(nstored) > 0 ==> v == Some(old(View().Contents())[0]) && View().Contents() == old(View().Contents())[1..]
      ensures old(nstored) == 0 ==> v.None? && View() == old(View())
    {
      if nstored == 0 {
        return None;
      }
      nstored := nstored - 1;
      mutex := mutex - 1;
      v := CirclePop();
      mutex := mutex + 1;
      nempty := nempty + 1;
    }
  }
}
