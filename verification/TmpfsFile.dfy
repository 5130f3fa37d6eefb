/** Regular files of the memory file system: a heap buffer that doubles (kernel/fs/tmpfs.c, tmpfs_read, tmpfs_write,
    tmpfs_truncate). */
module TmpfsFile {
  import opened Bytes
  import opened Vfs

  /** The bytes of a file after a write: what was there, zeros up to the offset, the data, and what was after it. */
  function Written(view: Block, off: nat, data: Block): (r: Block)
    ensures |r| == if off + |data| > |view| then off + |data| else |view|
    ensures forall i {:trigger r[i]} :: 0 <= i < |r| ==>
      r[i] == if off <= i < off + |data| then data[i - off] else if i < |view| then view[i] else 0
  {
    var end := if off + |data| > |view| then off + |data| else |view|;
    seq<byte>(end, i requires 0 <= i < end =>
      if off <= i < off + |data| then data[i - off] else if i < |view| then view[i] else 0)
  }

  /** At most `n` of the bytes from the offset on. */
  function Range(view: Block, off: nat, n: nat): Block {
    if off >= |view| then [] else if off + n > |view| then view[off..] else view[off..off + n]
  }

  /** What is written is what is read, at the same place. */
  lemma ReadBack(view: Block, off: nat, data: Block)
    ensures Range(Written(view, off, data), off, |data|) == data
  {
  }

  /** Writing in two parts is writing once. */
  lemma TwoWrites(view: Block, off: nat, a: Block, b: Block)
    ensures Written(Written(view, off, a), off + |a|, b) == Written(view, off, a + b)
  {
  }

  /** A file cut off and written again past the cut reads zeros in between, not what it held. */
  lemma CutThenWritten(view: Block, len: nat, off: nat, data: Block)
    requires len <= |view| && len <= off
    ensures Range(Written(view[..len], off, data), len, off - len + |data|) == Zeros(off - len) + data
  {
    var r := Written(view[..len], off, data);
    assert |r| == off + |data|;
  }

  class File {
    var data: array<byte>
    var size: nat

    ghost predicate Valid()
      reads this
    {
      size <= data.Length
    }

    ghost function View(): Block
      requires Valid()
      reads this, data
    {
      data[..size]
    }

    constructor ()
      ensures Valid() && View() == []
    {
      data := new byte[0];
      size := 0;
    }

    /** tmpfs_read. */
    method Read(n: nat, off: nat) returns (out: Block)
      requires Valid()
      ensures out == Range(View(), off, n)
    {
      if off >= size { return []; }
      var len := n;
      if len > size - off { len := size - off; }
      out := data[off..off + len];
    }

    /** The capacity for `end` bytes: doubled until it is enough. */
    method Capacity(end: nat) returns (ncap: nat)
      ensures ncap >= end && ncap >= data.Length
    {
      ncap := if data.Length != 0 then data.Length else 64;
      while ncap < end
        invariant ncap >= data.Length && ncap > 0
        decreases end - ncap
      {
        ncap := ncap * 2;
      }
    }

    /** krealloc: the old bytes, and after them whatever the heap has there. */
    method Grow(ncap: nat, heap: nat -> byte)
      requires Valid() && ncap >= data.Length
      modifies this
      ensures Valid() && fresh(data) && data.Length == ncap && size == old(size) && View() == old(View())
    {
      var nd := new byte[ncap];
      for i := 0 to ncap
        invariant forall k :: 0 <= k < i ==> nd[k] == if k < data.Length then data[k] else heap(k)
        modifies nd
      {
        nd[i] := if i < data.Length then data[i] else heap(i);
      }
      data := nd;
    }

    /** memset of the gap before the offset. */
    method Clear(from: nat, to: nat)
      requires Valid() && size <= from <= to <= data.Length
      modifies data
      ensures View() == old(View()) && forall k :: 0 <= k < data.Length ==>
          data[k] == if from <= k < to then 0 else old(data[k])
    {
      for i := from to to
        invariant forall k :: 0 <= k < data.Length ==> data[k] == if from <= k < i then 0 else old(data[k])
      {
        data[i] := 0;
      }
    }

    method Copy(off: nat, buf: Block)
      requires off + |buf| <= data.Length
      modifies data
      ensures forall k :: 0 <= k < data.Length ==>
          data[k] == if off <= k < off + |buf| then buf[k - off] else old(data[k])
    {
      for i := 0 to |buf|
        invariant forall k :: 0 <= k < data.Length ==>
            data[k] == if off <= k < off + i then buf[k - off] else old(data[k])
      {
        data[off + i] := buf[i];
      }
    }

    /** tmpfs_write: `heap` is what the allocator's memory held, `room` whether it had any. What was beyond the end of
        the file, from an earlier truncation or from the heap, never shows. */
    method Write(buf: Block, off: nat, heap: nat -> byte, room: bool) returns (rc: int)
      requires Valid()
      modifies this, data
      ensures Valid() && (data == old(data) || fresh(data))
      ensures rc == if off + |buf| > old(data.Length) && !room then ENOMEM else |buf|
      ensures View() == if rc >= 0 then Written(old(View()), off, buf) else old(View())
    {
      var end := off + |buf|;
      if end > data.Length {
        var ncap := Capacity(end);
        if !room { return ENOMEM; }
        Grow(ncap, heap);
      }
      if off > size { Clear(size, off); }
      Copy(off, buf);
      if end > size { size := end; }
      rc := |buf|;
    }

    /** tmpfs_truncate, to a length the file has. */
    method Truncate(len: nat)
      requires Valid() && len <= size
      modifies this
      ensures Valid() && View() == old(View())[..len] && data == old(data)
    {
      size := len;
    }
  }
}
