/** Redirecting a direct call in kernel text: opcode E8 and a signed 32-bit displacement from the next
    instruction ("CALL - Call Procedure", Intel SDM Volume 2A, chapter 3), with the program's 64-bit
    address arithmetic. */
module CallPatch {
  import opened Bytes

  const E8: byte := 0xE8
  const TWO31: int := 0x8000_0000
  const TWO32: int := 0x1_0000_0000
  const TWO64: int := 0x1_0000_0000_0000_0000

  type Address = a: int | 0 <= a < TWO64

  /** A 32-bit value read as signed. */
  function Signed32(v: int): int { if v >= TWO31 then v - TWO32 else v }

  /** Where a call goes whose displacement bytes are at address `call`. */
  function Target(call: int, bytes: seq<byte>): Address
    requires |bytes| == 4
  {
    (call + 4 + Signed32(Get32(bytes))) % TWO64
  }

  /** The displacement bytes that a patch of the site at `call` towards `api` stores. */
  function Displacement(call: int, api: Address): (bytes: seq<byte>)
    ensures |bytes| == 4
  {
    Put32((api - call - 4) % TWO64)
  }

  /** The displacement fits a signed 32-bit value. */
  predicate InReach(call: int, api: Address)
  {
    var d := (api - call - 4) % TWO64;
    d < TWO31 || d >= TWO64 - TWO31
  }

  lemma Congruent(x: int, y: int, k: int, n: int)
    requires n == TWO32 || n == TWO64
    requires x == y + k * n
    ensures x % n == y % n
  {
  }

  /** A patched site calls the new function exactly when that lies in reach; otherwise the truncated
      displacement goes somewhere else. */
  lemma PatchedTarget(call: int, api: Address)
    ensures Target(call, Displacement(call, api)) == api <==> InReach(call, api)
  {
    var d := (api - call - 4) % TWO64;
    var k := (api - call - 4) / TWO64;
    Get32Put32(d);
    var low := d % TWO32;
    var s := Signed32(low);
    assert Get32(Displacement(call, api)) == low;
    assert api == call + 4 + d + k * TWO64;
    SignExtend(d);
    var t := Target(call, Displacement(call, api));
    var j := (call + 4 + s) / TWO64;
    assert call + 4 + s == j * TWO64 + t;
    assert t - api == (s - d) - (j + k) * TWO64;
    if InReach(call, api) {
      assert s == d || s == d - TWO64;
    }
  }

  /** Truncating to 32 bits and extending the sign gives the value back, up to 2^64, exactly for the
      values in the signed 32-bit range. */
  lemma SignExtend(d: int)
    requires 0 <= d < TWO64
    ensures -TWO31 <= Signed32(d % TWO32) < TWO31
    ensures d < TWO31 ==> Signed32(d % TWO32) == d
    ensures d >= TWO64 - TWO31 ==> Signed32(d % TWO32) == d - TWO64
  {
    if d >= TWO64 - TWO31 {
      Congruent(d, d - (TWO64 - TWO32), TWO32 - 1, TWO32);
    }
  }

  lemma Put32Mod(v: int, w: int)
    requires v % TWO32 == w % TWO32
    ensures Put32(v) == Put32(w)
  {
    Get32Put32(v);
    Get32Put32(w);
    Put32Get32(Put32(v));
    Put32Get32(Put32(w));
  }

  /** Patching a site back to what it called stores the bytes it had, in reach or not. */
  lemma PatchBack(call: int, bytes: seq<byte>)
    requires |bytes| == 4
    ensures Displacement(call, Target(call, bytes)) == bytes
  {
    var v := Get32(bytes);
    var s := Signed32(v);
    var api := Target(call, bytes);
    var j := (call + 4 + s) / TWO64;
    var k := (api - call - 4) / TWO64;
    var d := (api - call - 4) % TWO64;
    assert d == s - (j + k) * TWO64;
    Congruent(d, s, -(j + k) * TWO32, TWO32);
    Congruent(s, v, if v >= TWO31 then -1 else 0, TWO32);
    Put32Mod(d, v);
    Put32Get32(bytes);
  }

  /** A call instruction to `api` starts at offset i of the text. */
  predicate SiteAt(text: seq<byte>, base: int, i: int, api: Address)
  {
    0 <= i && i + 5 <= |text| && text[i] == E8 && Target(base + i + 1, text[i + 1..i + 5]) == api
  }

  /** The instruction spelt out: opcode E8, then a little-endian displacement whose top byte carries the
      sign, counted from the address after the five bytes, modulo 2^64. */
  lemma SiteExactly(text: seq<byte>, base: int, i: int, api: Address)
    ensures SiteAt(text, base, i, api) <==>
      && 0 <= i && i + 5 <= |text| && text[i] == 0xE8
      && var top := if text[i + 4] < 128 then text[i + 4] as int else text[i + 4] as int - 256;
         (base + i + 5 + text[i + 1] as int + 256 * text[i + 2] as int + 65536 * text[i + 3] as int + 16777216 * top)
           % 0x1_0000_0000_0000_0000 == api
  {
    if 0 <= i && i + 5 <= |text| {
      var b := text[i + 1..i + 5];
      assert b[0] == text[i + 1] && b[1] == text[i + 2] && b[2] == text[i + 3] && b[3] == text[i + 4];
      SignedByBytes(b);
    }
  }

  lemma SignedByBytes(b: seq<byte>)
    requires |b| == 4
    ensures Signed32(Get32(b)) ==
      b[0] as int + 256 * b[1] as int + 65536 * b[2] as int + 16777216 * if b[3] < 128 then b[3] as int else b[3] as int - 256
  {
  }

  /** The text with the four bytes at offset i replaced. */
  function Patched(text: seq<byte>, i: int, bytes: seq<byte>): seq<byte>
    requires |bytes| == 4 && 0 <= i && i + 4 <= |text|
  {
    text[..i] + bytes + text[i + 4..]
  }

  /** Hook and unhook: whatever the hook, the site keeps its opcode, calls the hook exactly when that is
      in reach, and patching back to the original restores every byte. */
  lemma HookUnhook(text: seq<byte>, base: int, i: int, api: Address, hook: Address)
    requires SiteAt(text, base, i, api)
    ensures var call := base + i + 1;
      var hooked := Patched(text, i + 1, Displacement(call, hook));
      && (SiteAt(hooked, base, i, hook) <==> InReach(call, hook))
      && Patched(hooked, i + 1, Displacement(call, api)) == text
  {
    hide Target, Displacement, InReach;
    var call := base + i + 1;
    var b := text[i + 1..i + 5];
    var hooked := Patched(text, i + 1, Displacement(call, hook));
    PatchBack(call, b);
    PatchedTarget(call, hook);
    assert hooked[i + 1..i + 5] == Displacement(call, hook);
    assert hooked[i] == text[i];
    assert Patched(hooked, i + 1, b) == text;
  }

  /** A stretch of mapped memory. */
  class Memory {
    const base: int
    const text: array<byte>

    ghost predicate Valid() { 0 <= base && base + text.Length <= TWO64 }

    /** get_api_call_addr: the first call to `api` among the `range` byte positions from `parent`; the
        address of its displacement, or 0. Reading a displacement may go four bytes past the range. */
    method FindCall(parent: int, api: Address, range: int) returns (call: int)
      requires Valid() && base <= parent <= base + text.Length
      requires range > 0 ==> parent + range + 4 <= base + text.Length
      ensures call == 0 <==> forall i :: parent - base <= i < parent - base + range ==> !SiteAt(text[..], base, i, api)
      ensures call != 0 ==> parent < call <= parent + range && SiteAt(text[..], base, call - 1 - base, api)
      ensures call != 0 ==> forall i :: parent - base <= i < call - 1 - base ==> !SiteAt(text[..], base, i, api)
    {
      hide Target;
      var pos, left := parent, range;
      while left > 0
        invariant left <= range && pos + left == parent + range && parent <= pos
        invariant forall i :: parent - base <= i < pos - base ==> !SiteAt(text[..], base, i, api)
      {
        var i := pos - base;
        if text[i] == E8 {
          var bytes := text[i + 1..i + 5];
          assert text[..][i + 1..i + 5] == bytes;
          if Target(pos + 1, bytes) == api {
            assert SiteAt(text[..], base, i, api);
            return pos + 1;
          }
        }
        pos := pos + 1;
        left := left - 1;
      }
      call := 0;
    }

    /** set_call_addr: overwrite the four displacement bytes. */
    method SetCall(call: int, api: Address)
      requires Valid() && base <= call && call + 4 <= base + text.Length
      modifies text
      ensures text[..] == Patched(old(text[..]), call - base, Displacement(call, api))
    {
      var at, bytes := call - base, Displacement(call, api);
      text[at], text[at + 1], text[at + 2], text[at + 3] := bytes[0], bytes[1], bytes[2], bytes[3];
    }

    /** The scan and patch of loading. When no site is found the program writes through address 0;
        here nothing is written. */
    method Load(parent: int, api: Address, hook: Address, range: int) returns (call: int)
      requires Valid() && base <= parent <= base + text.Length
      requires range > 0 ==> parent + range + 4 <= base + text.Length
      modifies text
      ensures call == 0 ==> text[..] == old(text[..])
      ensures call != 0 ==> base < call && call + 4 <= base + text.Length && SiteAt(old(text[..]), base, call - 1 - base, api)
      ensures call != 0 ==> (SiteAt(text[..], base, call - 1 - base, hook) <==> InReach(call, hook))
      ensures call != 0 ==> text[..] == Patched(old(text[..]), call - base, Displacement(call, hook))
    {
      hide Target, Displacement, InReach;
      call := FindCall(parent, api, range);
      if call != 0 {
        HookUnhook(text[..], base, call - 1 - base, api, hook);
        SetCall(call, hook);
      }
    }

    /** The patch back of unloading: the text is what it was before loading. */
    method Unload(call: int, api: Address, ghost original: seq<byte>, ghost hook: Address)
      requires Valid() && base < call && call + 4 <= base + text.Length && |original| == text.Length
      requires SiteAt(original, base, call - 1 - base, api)
      requires text[..] == Patched(original, call - base, Displacement(call, hook))
      modifies text
      ensures text[..] == original
    {
      hide Target, Displacement, InReach;
      HookUnhook(original, base, call - 1 - base, api, hook);
      SetCall(call, api);
    }
  }
}
