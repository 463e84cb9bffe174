/**
 The byte cursor of `cursor.h`: a position moving through one stretch of memory.

 `cursor_push` refuses data that would fill the stretch to its end, `cursor_push_byte` does not;
 so of a string and its NUL either both are pushed or neither.
 */
module Cursors {
  import opened Bytes

  /** `struct cursor`; several may share one piece of memory. */
  class Cursor {
    const mem: array<byte>
    const start: nat
    const end: nat
    var p: nat

    ghost predicate Valid()
      reads this
    {
      start <= p <= end <= mem.Length
    }

    /** What lies behind the cursor. */
    ghost function Contents(): seq<byte>
      requires Valid()
      reads this, mem
    {
      mem[start..p]
    }

    /** `make_cursor` */
    constructor (mem: array<byte>, start: nat, end: nat)
      requires start <= end <= mem.Length
      ensures Valid() && this.mem == mem && this.start == start && this.end == end
      ensures p == start && Contents() == []
    {
      this.mem, this.start, this.end, p := mem, start, end, start;
    }

    /** `reset_cursor` */
    method Reset()
      requires Valid()
      modifies `p
      ensures Valid() && Contents() == []
    {
      p := start;
    }

    /** `cursor_push`: the bytes are appended unless they would reach the end. */
    method Push(data: seq<byte>) returns (ok: bool)
      requires Valid()
      modifies `p, mem
      ensures Valid() && (ok <==> old(p) + |data| < end)
      ensures Contents() == if ok then old(Contents()) + data else old(Contents())
      ensures mem[..start] == old(mem[..start]) && mem[end..] == old(mem[end..])
    {
      if p + |data| >= end {
        return false;
      }
      ghost var before := mem[..];
      CopyInto(mem, p, data);
      assert mem[start..p] == mem[..p][start..] == before[..p][start..];
      assert mem[..start] == mem[..p][..start] == before[..p][..start];
      assert mem[end..] == mem[p + |data|..][end - (p + |data|)..]
          == before[p + |data|..][end - (p + |data|)..];
      p := p + |data|;
      ok := true;
    }

    /** `cursor_push_byte`: this one may fill the last place. */
    method PushByte(c: byte) returns (ok: bool)
      requires Valid()
      modifies `p, mem
      ensures Valid() && (ok <==> old(p) < end)
      ensures Contents() == if ok then old(Contents()) + [c] else old(Contents())
      ensures mem[..start] == old(mem[..start]) && mem[end..] == old(mem[end..])
    {
      if p + 1 > end {
        return false;
      }
      mem[p] := c;
      p := p + 1;
      ok := true;
    }

    /** `cursor_push_c_str`: all of the string and its NUL when they fit, else nothing at all. */
    method PushCStr(str: seq<byte>) returns (ok: bool)
      requires Valid()
      modifies `p, mem
      ensures Valid() && (ok <==> old(p) + |str| + 1 <= end)
      ensures Contents() == if ok then old(Contents()) + str + [0] else old(Contents())
      ensures mem[..start] == old(mem[..start]) && mem[end..] == old(mem[end..])
    {
      ok := Push(str);
      if ok {
        ok := PushByte(0);
      }
    }

    /** `cursor_pull_c_str`: up to and over the next NUL, or to the end when there is none. */
    method PullCStr() returns (ok: bool, str: seq<byte>)
      requires Valid()
      modifies `p
      ensures Valid() && (ok <==> 0 in mem[old(p)..end])
      ensures ok ==> 0 !in str && old(p) + |str| + 1 == p && mem[old(p)..p] == str + [0]
      ensures !ok ==> p == end && str == []
    {
      ghost var from := p;
      var first := p;
      while p < end
        invariant from <= p <= end
        invariant 0 !in mem[from..p]
      {
        if mem[p] == 0 {
          str := mem[first..p];
          p := p + 1;
          return true, str;
        }
        p := p + 1;
      }
      return false, [];
    }
  }
}
