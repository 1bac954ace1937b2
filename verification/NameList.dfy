/** The packed list of file names: NUL-terminated strings one after the other in the data of a
    message, with `len` their total. */
module NameList {
  import opened Bytes

  type Name = seq<byte>

  ghost predicate GoodName(n: Name) { n != [] && 0 !in n }

  /** What strlen counts; without a NUL it would run past the data. */
  function StrLen(b: seq<byte>): (n: nat)
    ensures n <= |b|
    ensures forall i :: 0 <= i < n ==> b[i] != 0
    ensures n < |b| ==> b[n] == 0
  {
    if b == [] || b[0] == 0 then 0 else 1 + StrLen(b[1..])
  }

  lemma {:induction false} StrLenAt(b: seq<byte>, n: nat)
    requires n < |b| && b[n] == 0 && forall i :: 0 <= i < n ==> b[i] != 0
    ensures StrLen(b) == n
  {
  }

  datatype Names = Names(data: seq<byte>, len: int)
  {
    predicate Fits(name: Name) { 0 <= len && len + |name| + 1 <= |data| }

    /** strcpy of the name at `len`, its NUL included, and the new total. */
    function Append(name: Name): Names
      requires Fits(name)
    {
      Names(data[..len] + name + [0] + data[len + |name| + 1..], len + |name| + 1)
    }

    /** Drop the first name: move what follows it down, or empty the list when nothing does. */
    function Forward(): (m: Names)
      requires 0 <= len <= |data| && data != []
      ensures |m.data| == |data| && 0 <= m.len <= |data|
    {
      var n := StrLen(data);
      if len > n + 1 then Names(data[n + 1..len] + data[len - n - 1..], len - n - 1)
      else Names(data[0 := 0], 0)
    }

    /** The names the sender's loop sees: it reads the first string until that is empty. */
    function Walk(): seq<Name>
      requires 0 <= len <= |data| && data != []
      decreases len, if data[0] != 0 then 1 else 0
    {
      if data[0] == 0 then [] else [data[..StrLen(data)]] + Forward().Walk()
    }
  }

  function Blank(cap: nat): Names { Names(seq(cap, _ => 0), 0) }

  function Pack(names: seq<Name>): seq<byte>
  {
    if names == [] then [] else Pack(names[..|names| - 1]) + names[|names| - 1] + [0]
  }

  lemma PackSnoc(names: seq<Name>, n: Name)
    ensures Pack(names + [n]) == Pack(names) + n + [0]
  {
    assert (names + [n])[..|names|] == names;
  }

  lemma PackNil()
    ensures Pack([]) == []
  {
  }

  lemma Regroup(a: seq<byte>, b: seq<byte>, c: seq<byte>, d: seq<byte>)
    ensures (a + b) + c + d == a + (b + c + d)
  {
  }

  lemma {:induction false} PackCons(names: seq<Name>)
    requires names != []
    ensures Pack(names) == names[0] + [0] + Pack(names[1..])
  {
    hide Pack;
    var front, last := names[..|names| - 1], names[|names| - 1];
    assert names == front + [last];
    PackSnoc(front, last);
    if front != [] {
      PackCons(front);
      assert names[1..] == front[1..] + [last];
      PackSnoc(front[1..], last);
      Regroup(names[0] + [0], Pack(front[1..]), last, [0]);
    } else {
      PackNil();
    }
  }

  /** The data hold exactly these names. */
  ghost predicate Holds(m: Names, names: seq<Name>)
  {
    && 0 <= m.len <= |m.data| && m.data != []
    && m.data[..m.len] == Pack(names)
    && (forall n :: n in names ==> GoodName(n))
  }

  /** Appending a name lists it last. */
  lemma AppendLists(m: Names, names: seq<Name>, n: Name)
    requires Holds(m, names) && GoodName(n) && m.Fits(n)
    ensures Holds(m.Append(n), names + [n]) && |m.Append(n).data| == |m.data|
  {
    PackSnoc(names, n);
    var q := m.Append(n);
    assert q.data[..q.len] == m.data[..m.len] + n + [0];
  }

  /** The first string of a list is its first name. */
  lemma FirstName(m: Names, names: seq<Name>)
    requires Holds(m, names) && names != []
    ensures StrLen(m.data) == |names[0]| && m.data[0] != 0 && m.data[..StrLen(m.data)] == names[0]
    ensures |names[0]| + 1 <= m.len
  {
    hide Pack;
    PackCons(names);
    var n, p := names[0], m.data[..m.len];
    assert p[..|n|] == n && p[|n|] == 0;
    assert n in names;
    forall i | 0 <= i < |n|
      ensures m.data[i] != 0
    {
      assert m.data[i] == p[i] == n[i];
    }
    StrLenAt(m.data, |n|);
    assert m.data[..|n|] == p[..|n|];
  }

  /** Forwarding drops exactly the first name; `len` strictly falls. */
  lemma ForwardDrops(m: Names, names: seq<Name>)
    requires Holds(m, names) && names != []
    ensures Holds(m.Forward(), names[1..]) && m.Forward().len < m.len
    ensures names[1..] == [] ==> m.Forward().data[0] == 0 && m.Forward().len == 0
  {
    hide Pack;
    FirstName(m, names);
    PackCons(names);
    var n, q := |names[0]|, m.Forward();
    var p := m.data[..m.len];
    assert p[n + 1..] == Pack(names[1..]);
    if m.len > n + 1 {
      assert q.data[..q.len] == p[n + 1..];
      if names[1..] == [] { PackNil(); }
    } else {
      PackLonger(names[1..]);
      assert q.data[..0] == [];
    }
  }

  lemma PackLonger(names: seq<Name>)
    ensures names != [] ==> |Pack(names)| > 0
  {
  }

  /** Round trip: for any list of good names, what the append code packed the sender's walk unpacks, in
      the same order. */
  lemma {:induction false} WalkUnpacks(m: Names, names: seq<Name>)
    requires Holds(m, names) && names != []
    ensures m.Walk() == names
    decreases |names|
  {
    hide Pack, StrLen;
    FirstName(m, names);
    ForwardDrops(m, names);
    if names[1..] != [] {
      WalkUnpacks(m.Forward(), names[1..]);
    }
    assert names == [names[0]] + names[1..];
  }

  /** Build a list by appending each name in turn to a blank message. */
  function Build(cap: nat, names: seq<Name>): Names
    requires |Pack(names)| <= cap
    ensures Build(cap, names).len == |Pack(names)| && |Build(cap, names).data| == cap
  {
    if names == [] then Blank(cap)
    else Build(cap, names[..|names| - 1]).Append(names[|names| - 1])
  }

  lemma {:induction false} BuildHolds(cap: nat, names: seq<Name>)
    requires |Pack(names)| <= cap && cap > 0 && forall n :: n in names ==> GoodName(n)
    ensures Holds(Build(cap, names), names)
  {
    if names != [] {
      var front := names[..|names| - 1];
      BuildHolds(cap, front);
      AppendLists(Build(cap, front), front, names[|names| - 1]);
      assert front + [names[|names| - 1]] == names;
    } else {
      assert Blank(cap).data[..0] == [];
    }
  }

  /** Packing and walking are inverse for every list that fits, the empty one included. */
  lemma RoundTrip(cap: nat, names: seq<Name>)
    requires |Pack(names)| <= cap && cap > 0 && forall n :: n in names ==> GoodName(n)
    ensures Build(cap, names).Walk() == names
  {
    BuildHolds(cap, names);
    if names != [] {
      WalkUnpacks(Build(cap, names), names);
    }
  }

  /** Taking the last name's bytes off `len` unlists it; but when it was the only one, its bytes are
      still there and the walk still sees it. */
  lemma Unlist(m: Names, names: seq<Name>)
    requires Holds(m, names) && names != []
    ensures var q := m.(len := m.len - (|names[|names| - 1]| + 1));
      && Holds(q, names[..|names| - 1])
      && q.Walk() == if |names| == 1 then names else names[..|names| - 1]
  {
    var last := names[|names| - 1];
    var front := names[..|names| - 1];
    var q := m.(len := m.len - (|last| + 1));
    assert names == front + [last];
    PackSnoc(front, last);
    assert q.data[..q.len] == m.data[..m.len][..q.len];
    assert Holds(q, front);
    if |names| == 1 {
      FirstName(m, names);
      assert q.Forward().Walk() == [];
    } else {
      WalkUnpacks(q, front);
    }
  }
}
