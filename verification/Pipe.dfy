/** Pipes (kernel/fs/vfs.c, pipe_read, pipe_write and pipe_detach): the ring buffer, and the blocking
    protocol of any number of readers, writers and closing ends. */
module Pipe {
  import opened Bytes

  const CAP := 4096

  // ------------------------------------------------------------ the ring

  /** Slot `k` places on from slot `i`. */
  function Slot(i: nat, k: nat): nat {
    if i + k < CAP then i + k else i + k - CAP
  }

  lemma SlotIsMod(i: nat, k: nat)
    requires i < CAP && k <= CAP
    ensures Slot(i, k) == (i + k) % CAP
  {
  }

  /** The next slot round the ring. */
  method Bump(i: nat) returns (r: nat)
    requires i < CAP
    ensures r < CAP && r == Slot(i, 1)
  {
    r := (i + 1) % CAP;
  }

  /** The buffer of a pipe. */
  class Ring {
    const buf: array<byte>
    var head: nat
    var tail: nat
    var count: nat

    ghost predicate Valid()
      reads this, buf
    {
      buf.Length == CAP && tail < CAP && count <= CAP && head < CAP && head == Slot(tail, count)
    }

    /** The bytes in the pipe, oldest first. */
    ghost function Contents(): (s: seq<byte>)
      requires Valid()
      reads this, buf
      ensures |s| == count
    {
      seq<byte>(count, k requires 0 <= k < count && Valid() reads this, buf => buf[Slot(tail, k)])
    }

    constructor ()
      ensures Valid() && Contents() == [] && fresh(buf)
    {
      buf := new byte[CAP];
      head, tail, count := 0, 0, 0;
    }

    /** The copy loop of pipe_read: the oldest bytes, at most `n` of them, leave the pipe. */
    method Take(n: nat) returns (out: seq<byte>)
      requires Valid()
      modifies this
      ensures Valid()
      ensures var chunk := if n > old(count) then old(count) else n;
        out == old(Contents())[..chunk] && Contents() == old(Contents())[chunk..]
    {
      var chunk := n;
      if chunk > count { chunk := count; }
      out := [];
      ghost var was := Contents();
      for i := 0 to chunk
        invariant |out| == i && out == was[..i]
        invariant buf.Length == CAP && tail < CAP && tail == Slot(old(tail), i) && count == old(count) &&
            head == old(head)
      {
        assert buf[tail] == was[i];
        out := out + [buf[tail]];
        tail := Bump(tail);
      }
      count := count - chunk;
      assert Contents() == was[chunk..];
    }

    /** The copy loop of pipe_write: as many of the bytes from `put` on as there is room for enter the pipe. */
    method Put(data: seq<byte>, put: nat) returns (chunk: nat)
      requires Valid() && put <= |data|
      modifies this, buf
      ensures Valid()
      ensures chunk == if |data| - put > CAP - old(count) then CAP - old(count) else |data| - put
      ensures Contents() == old(Contents()) + data[put..put + chunk]
    {
      var space := CAP - count;
      chunk := |data| - put;
      if chunk > space { chunk := space; }
      ghost var all := Contents() + data[put..put + chunk];
      for i := 0 to chunk
        invariant buf.Length == CAP && head < CAP && head == Slot(tail, count + i) && count == old(count) &&
            tail == old(tail)
        invariant forall k :: 0 <= k < count + i ==> buf[Slot(tail, k)] == all[k]
      {
        assert all[count + i] == data[put + i];
        buf[head] := data[put + i];
        head := Bump(head);
      }
      count := count + chunk;
      assert Contents() == all;
    }
  }
}
