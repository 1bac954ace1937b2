/** The circular array of the message queue. */
module CircularQueue {
  import opened Wrappers

  /** `i` steps on from `at` in a circle of `max` cells. */
  function Wrap(at: int, i: int, max: int): (r: int)
    requires 0 <= at < max && 0 <= i <= max
    ensures 0 <= r < max && r == (at + i) % max
  {
    if at + i < max then
      SmallMod(at + i, max); at + i
    else
      WrapMod(at + i, max); at + i - max
  }

  lemma SmallMod(x: int, max: int)
    requires 0 <= x < max
    ensures x % max == x
  {
  }

  lemma WrapMod(x: int, max: int)
    requires 0 < max <= x < 2 * max
    ensures x % max == x - max
  {
    assert x == 1 * max + (x - max);
  }

  datatype Circle<T> = Circle(cells: seq<Option<T>>, wpos: int, rpos: int, size: int)
  {
    function Max(): nat { |cells| }

    /** The items fill the cells from `rpos` up to `wpos`; every other cell is NULL. */
    ghost predicate Valid()
    {
      && 0 <= rpos < Max() && 0 <= size <= Max() && -1 <= wpos < Max()
      && (wpos + 1) % Max() == (rpos + size) % Max()
      && (forall i :: 0 <= i < Max() ==> (cells[Wrap(rpos, i, Max())].Some? <==> i < size))
    }

    ghost function Contents(): seq<T>
      requires Valid()
    {
      seq(size, i requires 0 <= i < size => cells[Wrap(rpos, i, Max())].value)
    }

    function Push(v: T): (Circle<T>, int)
      requires -1 <= wpos && Max() > 0
    {
      var pos := (wpos + 1) % Max();
      if size >= Max() then (this, -1)
      else (Circle(cells[pos := Some(v)], pos, rpos, size + 1), 0)
    }

    function Pop(): (Circle<T>, Option<T>)
      requires 0 <= rpos < Max()
    {
      if size <= 0 then (this, None)
      else (Circle(cells[rpos := None], wpos, (rpos + 1) % Max(), size - 1), cells[rpos])
    }
  }

  function Fresh<T>(max: nat): Circle<T> { Circle(seq(max, _ => None), -1, 0, 0) }

  lemma FreshIsEmpty<T>(max: nat)
    requires max >= 1
    ensures Fresh<T>(max).Valid() && Fresh<T>(max).Contents() == []
  {
    SmallMod(0, max);
  }

  /** A push on a circle with a free cell appends; on a full one it fails and changes nothing. */
  lemma PushAppends<T>(c: Circle<T>, v: T)
    requires c.Valid()
    ensures c.Push(v).0.Valid() && c.Push(v).0.Max() == c.Max()
    ensures c.size < c.Max() ==> c.Push(v).1 == 0 && c.Push(v).0.Contents() == c.Contents() + [v]
    ensures c.size == c.Max() ==> c.Push(v).1 == -1 && c.Push(v).0 == c
  {
    if c.size < c.Max() {
      var d := c.Push(v).0;
      var n := c.Max();
      var pos := Wrap(c.rpos, c.size, n);
      assert d.wpos == pos;
      NextMod(c.rpos + c.size, n);
      assert (d.wpos + 1) % n == (d.rpos + d.size) % n;
      forall i | 0 <= i < n
        ensures d.cells[Wrap(d.rpos, i, n)].Some? <==> i < d.size
        ensures i < c.size ==> d.cells[Wrap(d.rpos, i, n)] == c.cells[Wrap(c.rpos, i, n)]
      {
        assert d.cells[Wrap(c.rpos, i, n)] == if i == c.size then Some(v) else c.cells[Wrap(c.rpos, i, n)];
      }
      assert d.Contents() == c.Contents() + [v];
    }
  }

  lemma NextMod(x: int, n: int)
    requires 0 <= x && x + 1 < 2 * n
    ensures (x + 1) % n == (x % n + 1) % n
  {
    if x < n {
      SmallMod(x, n);
    } else {
      WrapMod(x, n);
      WrapMod(x + 1, n);
      SmallMod(x - n + 1, n);
    }
  }

  /** A pop takes the oldest item and clears its cell; on an empty circle it fails and changes nothing. */
  lemma PopTakesFirst<T>(c: Circle<T>)
    requires c.Valid()
    ensures c.Pop().0.Valid() && c.Pop().0.Max() == c.Max()
    ensures c.size > 0 ==> c.Pop().1 == Some(c.Contents()[0]) && c.Pop().0.Contents() == c.Contents()[1..]
    ensures c.size == 0 ==> c.Pop().1.None? && c.Pop().0 == c
  {
    if c.size > 0 {
      var d := c.Pop().0;
      var n := c.Max();
      assert Wrap(c.rpos, 0, n) == c.rpos;
      assert d.rpos == Wrap(c.rpos, 1, n);
      forall i | 0 <= i < n
        ensures d.cells[Wrap(d.rpos, i, n)].Some? <==> i < d.size
        ensures i < d.size ==> d.cells[Wrap(d.rpos, i, n)] == c.cells[Wrap(c.rpos, i + 1, n)]
      {
        if i + 1 < n {
          assert Wrap(d.rpos, i, n) == Wrap(c.rpos, i + 1, n);
          assert Wrap(c.rpos, i + 1, n) != c.rpos;
        } else {
          assert Wrap(d.rpos, i, n) == c.rpos;
        }
      }
      SameStep(c.rpos, c.size, n);
    }
  }

  lemma SameStep(at: int, k: int, n: int)
    requires 0 <= at < n && 0 < k <= n
    ensures ((at + 1) % n + (k - 1)) % n == (at + k) % n
  {
    if at + 1 < n {
      SmallMod(at + 1, n);
    } else {
      WrapMod(at + 1, n);
      SmallMod(k - 1, n);
      if k == n {
        WrapMod(at + k, n);
      } else {
        WrapMod(at + k, n);
      }
    }
  }
}
