/** Resumable directory listing (kernel/fs/vfs.c, vfs_getdents) and the record walk of its reader
    (user/ls.c, list_dir). */
module Getdents {
  import opened Bytes
  import opened Vfs

  const HDR := 19

  /** What lookup says of a name. */
  datatype Kind = Missing | Dir | Chr | Other

  datatype Entry = Entry(name: seq<byte>, kind: Kind)

  /** What the descriptor stands for; a directory is what readdir gives at each index. */
  datatype Target = NoFile | NotDir | Listed(list: seq<Entry>)

  /** A name is a C string in a buffer of NAME_MAX + 1 bytes. */
  predicate CName(name: seq<byte>) {
    |name| <= NAME_MAX && forall i :: 0 <= i < |name| ==> name[i] != 0
  }

  /** Indices are 32 bits wide. */
  ghost predicate Listing(list: seq<Entry>) {
    |list| < U32 && forall i :: 0 <= i < |list| ==> CName(list[i].name)
  }

  // ------------------------------------------------------------ records

  function DType(k: Kind): byte {
    match k
    case Missing => 0
    case Dir => 4
    case Chr => 2
    case Other => 8
  }

  /** The least multiple of 8 that is at least `n`. */
  function Round8(n: nat): nat {
    if n == 0 then 0 else if n <= 8 then 8 else 8 + Round8(n - 8)
  }

  lemma {:induction false} Round8Is(n: nat)
    ensures Round8(n) == (n + 7) / 8 * 8 && n <= Round8(n) <= n + 7
  {
    if n > 8 { Round8Is(n - 8); }
  }

  /** The record length for a name of `len` bytes. */
  function Reclen(len: nat): nat {
    Round8(HDR + len + 1)
  }

  /** Byte `i` of `v`, the lowest first. */
  function ByteAt(v: nat, i: nat): byte {
    if i == 0 then v % 0x100 else ByteAt(v / 0x100, i - 1)
  }

  function Le(v: nat, n: nat): (b: Block)
    ensures |b| == n
  {
    seq<byte>(n, i requires 0 <= i < n => ByteAt(v, i))
  }

  function Value(b: Block): nat {
    if b == [] then 0 else var lo: int := b[0]; lo + 0x100 * Value(b[1..])
  }

  function Pow256(n: nat): nat {
    if n == 0 then 1 else 0x100 * Pow256(n - 1)
  }

  lemma {:induction false} LeValue(v: nat, n: nat)
    requires v < Pow256(n)
    ensures Value(Le(v, n)) == v
  {
    if n > 0 {
      LeValue(v / 0x100, n - 1);
      assert Le(v, n)[1..] == Le(v / 0x100, n - 1);
    }
  }

  function Head(e: Entry, idx: nat): (b: Block)
    ensures |b| == HDR
  {
    Le(idx + 1, 8) + Le(idx + 1, 8) + Le(Reclen(|e.name|), 2) + [DType(e.kind)]
  }

  /** The record of entry `idx`: inode and offset, both idx + 1, length, type, name, and zeros to the end. */
  function Rec(e: Entry, idx: nat): (b: Block)
    ensures |b| == Reclen(|e.name|)
  {
    ReclenIs(|e.name|);
    Head(e, idx) + e.name + Zeros(Reclen(|e.name|) - HDR - |e.name|)
  }

  /** Record `j` of these is the one of entry i + j. */
  ghost predicate RecAt(rs: seq<Block>, list: seq<Entry>, i: nat, j: nat)
    requires j < |rs| && i + j < |list|
  {
    rs[j] == Rec(list[i + j], i + j)
  }

  /** These are the records of entries `i` on. */
  ghost predicate Part(rs: seq<Block>, list: seq<Entry>, i: nat) {
    i + |rs| <= |list| && forall j: nat {:trigger RecAt(rs, list, i, j)} :: j < |rs| ==> RecAt(rs, list, i, j)
  }

  lemma PartSlice(rs: seq<Block>, list: seq<Entry>, i: nat, a: nat, b: nat, t: seq<Block>, x: nat)
    requires Part(rs, list, i) && a <= b <= |rs| && t == rs[a..b] && x == i + a
    ensures Part(t, list, x)
  {
    forall j: nat | j < |t| ensures RecAt(t, list, x, j) { assert RecAt(rs, list, i, a + j); }
  }

  function Recs(list: seq<Entry>): (rs: seq<Block>)
    ensures |rs| == |list| && Part(rs, list, 0)
  {
    seq(|list|, i requires 0 <= i < |list| => Rec(list[i], i))
  }

  function Cat(rs: seq<Block>): Block {
    if rs == [] then [] else rs[0] + Cat(rs[1..])
  }

  /** How many records from the first on go into `n` bytes. */
  function Fits(rs: seq<Block>, n: nat): (k: nat)
    ensures k <= |rs|
  {
    if rs == [] || |rs[0]| > n then 0 else 1 + Fits(rs[1..], n - |rs[0]|)
  }

  /** Records are 8-aligned and hold the name and its NUL. */
  lemma ReclenIs(len: nat)
    ensures len + 20 <= Reclen(len) <= len + 27 && Reclen(len) % 8 == 0
  {
    Round8Is(HDR + len + 1);
  }

  lemma {:induction false} CatJoin(a: seq<Block>, b: seq<Block>)
    ensures Cat(a + b) == Cat(a) + Cat(b)
  {
    if a == [] {
      assert a + b == b;
    } else {
      CatJoin(a[1..], b);
      assert (a + b)[0] == a[0] && (a + b)[1..] == a[1..] + b;
      assert a[0] + (Cat(a[1..]) + Cat(b)) == a[0] + Cat(a[1..]) + Cat(b);
    }
  }

  /** The count is the most that fits: those records fit, and one more would not or is not there. */
  lemma {:induction false} FitsMost(rs: seq<Block>, n: nat)
    ensures var k := Fits(rs, n); |Cat(rs[..k])| <= n && (k == |rs| || |Cat(rs[..k + 1])| > n)
  {
    var k := Fits(rs, n);
    if rs != [] {
      if |rs[0]| <= n {
        FitsMost(rs[1..], n - |rs[0]|);
        assert rs[..k][1..] == rs[1..][..k - 1];
        if k < |rs| { assert rs[..k + 1][1..] == rs[1..][..k]; }
      } else {
        assert rs[..1][1..] == [];
      }
    }
  }

  // ------------------------------------------------------------ vfs_getdents

  /** memcpy into the buffer. */
  method Store(out: array<byte>, at: nat, s: Block)
    requires at + |s| <= out.Length
    modifies out
    ensures out[..at + |s|] == old(out[..at]) + s && out[at + |s|..] == old(out[at + |s|..])
  {
    for k := 0 to |s|
      invariant out[..at + k] == old(out[..at]) + s[..k] && out[at + k..] == old(out[at + k..])
    {
      out[at + k] := s[k];
    }
    assert s[..|s|] == s;
  }

  method PutHead(out: array<byte>, used: nat, e: Entry, idx: nat)
    requires used + HDR <= out.Length
    modifies out
    ensures out[..used + HDR] == old(out[..used]) + Head(e, idx) && out[used + HDR..] == old(out[used + HDR..])
  {
    ghost var rest := out[used + HDR..];
    assert rest == out[used + 8..][HDR - 8..];
    Store(out, used, Le(idx + 1, 8));
    assert out[used + 8..][HDR - 8..] == rest == out[used + 16..][HDR - 16..];
    Store(out, used + 8, Le(idx + 1, 8));
    assert out[used + 16..][HDR - 16..] == rest == out[used + 18..][HDR - 18..];
    Store(out, used + 16, Le(Reclen(|e.name|), 2));
    assert out[used + 18..][HDR - 18..] == rest;
    out[used + 18] := DType(e.kind);
  }

  /** One record into the buffer. */
  method PutRecord(out: array<byte>, used: nat, e: Entry, idx: nat)
    requires used + Reclen(|e.name|) <= out.Length
    modifies out
    ensures out[..used + Reclen(|e.name|)] == old(out[..used]) + Rec(e, idx)
    ensures out[used + Reclen(|e.name|)..] == old(out[used + Reclen(|e.name|)..])
  {
    ReclenIs(|e.name|);
    var pad := Reclen(|e.name|) - HDR - |e.name|;
    var end := used + Reclen(|e.name|);
    ghost var rest := out[end..];
    assert rest == out[used + HDR..][end - used - HDR..];
    PutHead(out, used, e, idx);
    assert out[used + HDR..][end - used - HDR..] == rest == out[end - pad..][pad..];
    Store(out, used + HDR, e.name);
    assert out[end - pad..][pad..] == rest;
    ghost var before := out[..end - pad];
    Store(out, end - pad, Zeros(pad));
    assert out[..end] == before + Zeros(pad) == old(out[..used]) + (Head(e, idx) + e.name + Zeros(pad));
  }

  /** The index is the offset cut to 32 bits. */
  function Low(offset: nat): nat {
    if offset < U32 then offset else Low(offset - U32)
  }

  lemma {:induction false} LowIs(offset: nat)
    ensures Low(offset) == offset % U32
    ensures Low(offset + 1) == if Low(offset) + 1 == U32 then 0 else Low(offset) + 1
  {
    if offset >= U32 { LowIs(offset - U32); }
  }

  method Index(offset: nat) returns (idx: nat)
    ensures idx == Low(offset) < U32
  {
    LowIs(offset);
    idx := offset % U32;
  }

  /** The records a call at this offset has before it. */
  function From(list: seq<Entry>, offset: nat): seq<Block> {
    if Low(offset) <= |list| then Recs(list)[Low(offset)..] else []
  }

  /** `k` of the records are in the first `used` bytes of the buffer, in order; the rest is as it was. */
  ghost predicate Filled(rs: seq<Block>, k: nat, used: nat, n: nat, buf: Block, was: Block) {
    && k <= |rs| && |buf| == |was| && used == |Cat(rs[..k])| <= n <= |buf|
    && buf[..used] == Cat(rs[..k]) && buf[used..] == was[used..]
    && Fits(rs, n) == k + Fits(rs[k..], n - used)
  }

  lemma FilledNext(rs: seq<Block>, k: nat, used: nat, n: nat, buf: Block, was: Block, buf': Block)
    requires Filled(rs, k, used, n, buf, was) && k < |rs| && used + |rs[k]| <= n && |buf'| == |buf|
    requires buf'[..used + |rs[k]|] == buf[..used] + rs[k] && buf'[used + |rs[k]|..] == buf[used + |rs[k]|..]
    ensures Filled(rs, k + 1, used + |rs[k]|, n, buf', was)
  {
    var one: seq<Block> := [rs[k]];
    CatJoin(rs[..k], one);
    assert rs[..k] + one == rs[..k + 1];
    assert Cat(one) == rs[k] by { assert |one[1..]| == 0; }
    assert rs[k..][0] == rs[k] && rs[k..][1..] == rs[k + 1..];
    var r := |rs[k]|;
    assert buf[used + r..] == buf[used..][r..] && was[used + r..] == was[used..][r..];
  }

  /** What a call answers over the records before it. */
  ghost predicate Answer(rs: seq<Block>, n: nat, rc: int, buf: Block, was: Block) {
    var k := Fits(rs, n);
    if k == 0 && rs != [] then rc == EINVAL && buf == was
    else && 0 <= rc <= n <= |buf| == |was| && rc == |Cat(rs[..k])|
         && buf[..rc] == Cat(rs[..k]) && buf[rc..] == was[rc..]
  }

  lemma FilledStop(rs: seq<Block>, k: nat, used: nat, n: nat, buf: Block, was: Block)
    requires Filled(rs, k, used, n, buf, was) && (k == |rs| || used + |rs[k]| > n)
    ensures Fits(rs, n) == k
    ensures Answer(rs, n, if k == 0 && rs != [] then EINVAL else used, buf, was)
  {
    if k < |rs| { assert rs[k..][0] == rs[k]; }
    if k == 0 { assert buf[0..] == buf && was[0..] == was; }
  }

  datatype Next = Put | End | Full

  /** The offset is past the records put in. */
  ghost predicate Placed(rs: seq<Block>, k: nat, used: nat, list: seq<Entry>, offset: nat, first: nat) {
    && rs == From(list, first) && offset == first + k && (k > 0 ==> used > 0)
    && (rs != [] ==> Low(offset) == Low(first) + k)
  }

  /** The record the loop has come to is that of the entry the offset leads to. */
  lemma HereIs(rs: seq<Block>, k: nat, used: nat, list: seq<Entry>, offset: nat, first: nat)
    requires Listing(list) && Placed(rs, k, used, list, offset, first) && k <= |rs|
    ensures k < |rs| <==> Low(offset) < |list|
    ensures k < |rs| ==> rs[k] == Rec(list[Low(offset)], Low(offset)) && |rs[k]| == Reclen(|list[Low(offset)].name|)
  {
    if k < |rs| {
      assert RecAt(Recs(list), list, 0, Low(offset)) && rs[k] == Recs(list)[Low(offset)];
      ReclenIs(|list[Low(offset)].name|);
    }
  }

  lemma PlacedNext(rs: seq<Block>, k: nat, used: nat, used': nat, list: seq<Entry>, offset: nat, first: nat)
    requires Listing(list) && Placed(rs, k, used, list, offset, first) && k < |rs| && used' > 0
    ensures Placed(rs, k + 1, used', list, offset + 1, first)
  {
    LowIs(offset);
    LowIs(offset + 1);
  }

  lemma FilledStart(rs: seq<Block>, n: nat, buf: Block)
    requires n <= |buf|
    ensures Filled(rs, 0, 0, n, buf, buf)
  {
    assert rs[..0] == [] && rs[0..] == rs;
  }

  /** One more record. */
  method PutNext(out: array<byte>, used: nat, n: nat, e: Entry, idx: nat, ghost rs: seq<Block>, ghost k: nat,
      ghost was: Block)
    returns (used': nat)
    requires Filled(rs, k, used, n, out[..], was) && k < |rs| && rs[k] == Rec(e, idx) && used + |rs[k]| <= n
    modifies out
    ensures Filled(rs, k + 1, used', n, out[..], was) && used' > 0
  {
    ghost var buf := out[..];
    ReclenIs(|e.name|);
    PutRecord(out, used, e, idx);
    FilledNext(rs, k, used, n, buf, was, out[..]);
    used' := used + Reclen(|e.name|);
  }

  /** An open directory: the offset of its description. */
  class OpenDir {
    var offset: nat

    constructor ()
      ensures offset == 0
    {
      offset := 0;
    }

    /** vfs_getdents. The records from the index on, as many as fit; the offset moves past them; bytes after them
        stay. It is an error only if there is a record and it alone does not fit. */
    method Getdents(t: Target, out: array<byte>, n: nat) returns (rc: int)
      requires n <= out.Length && (t.Listed? ==> Listing(t.list))
      modifies this, out
      ensures !t.Listed? ==>
          rc == (if t.NoFile? then EBADF else ENOTDIR) && offset == old(offset) && out[..] == old(out[..])
      ensures t.Listed? ==> Answer(From(t.list, old(offset)), n, rc, out[..], old(out[..]))
      ensures t.Listed? ==> offset == old(offset) + Fits(From(t.list, old(offset)), n)
    {
      if t.NoFile? { return EBADF; }
      if t.NotDir? { return ENOTDIR; }
      rc := Fill(t.list, out, n);
    }

    /** The loop over the entries. */
    method Fill(list: seq<Entry>, out: array<byte>, n: nat) returns (rc: int)
      requires n <= out.Length && Listing(list)
      modifies this, out
      ensures Answer(From(list, old(offset)), n, rc, out[..], old(out[..]))
      ensures offset == old(offset) + Fits(From(list, old(offset)), n)
    {
      var used: nat, next := 0, Put;
      ghost var rs, k, was := From(list, offset), 0, out[..];
      FilledStart(rs, n, was);
      while next == Put
        invariant Filled(rs, k, used, n, out[..], was) && Placed(rs, k, used, list, offset, old(offset))
        invariant next == End ==> k == |rs|
        invariant next == Full ==> k < |rs| && used + |rs[k]| > n
        decreases |rs| - k, if next == Put then 1 else 0
      {
        next, used := Step(list, out, used, n, rs, k, was, old(offset));
        k := if next == Put then k + 1 else k;
      }
      FilledStop(rs, k, used, n, out[..], was);
      rc := if next == Full && used == 0 then EINVAL else used;
    }

    /** One turn of the loop: the next record is put in, or there is none, or it does not fit. */
    method Step(list: seq<Entry>, out: array<byte>, used: nat, n: nat,
                ghost rs: seq<Block>, ghost k: nat, ghost was: Block, ghost first: nat)
      returns (next: Next, used': nat)
      requires Listing(list) && Filled(rs, k, used, n, out[..], was) && Placed(rs, k, used, list, offset, first)
      modifies this, out
      ensures next == Put ==> Filled(rs, k + 1, used', n, out[..], was) && Placed(rs, k + 1, used', list, offset, first)
      ensures next != Put ==> used' == used && out[..] == old(out[..]) && offset == old(offset)
      ensures if next == End then k == |rs| else k < |rs|
      ensures next == Full <==> k < |rs| && used + |rs[k]| > n
    {
      used' := used;
      var idx := Index(offset);
      HereIs(rs, k, used, list, offset, first);
      if idx >= |list| { return End, used; }
      var reclen := Reclen(|list[idx].name|);
      if used + reclen > n { return Full, used; }
      used' := PutNext(out, used, n, list[idx], idx, rs, k, was);
      PlacedNext(rs, k, used, used', list, offset, first);
      offset := offset + 1;
      next := Put;
    }
  }

  // ------------------------------------------------------------ any sequence of calls

  /** How many records calls with these buffer sizes pass over, one after another. */
  function Seen(rs: seq<Block>, sizes: seq<nat>): (n: nat)
    ensures n <= |rs|
  {
    if sizes == [] then 0 else
      var at := Seen(rs, sizes[..|sizes| - 1]);
      at + Fits(rs[at..], sizes[|sizes| - 1])
  }

  /** Each buffer holds at least the next record there is. */
  predicate Roomy(rs: seq<Block>, sizes: seq<nat>) {
    sizes != [] ==>
      var at := Seen(rs, sizes[..|sizes| - 1]);
      Roomy(rs, sizes[..|sizes| - 1]) && (at < |rs| ==> |rs[at]| <= sizes[|sizes| - 1])
  }

  lemma TwoParts(rs: seq<Block>, k: nat, m: nat)
    requires k + m <= |rs|
    ensures Cat(rs[..k + m]) == Cat(rs[..k]) + Cat(rs[k..][..m])
  {
    CatJoin(rs[..k], rs[k..][..m]);
    assert rs[..k] + rs[k..][..m] == rs[..k + m];
  }

  /** With buffers that can each hold the next record every call moves on, so enough calls give every record. */
  lemma {:induction false} SeenAll(rs: seq<Block>, sizes: seq<nat>)
    requires Roomy(rs, sizes)
    ensures Seen(rs, sizes) == |rs| || Seen(rs, sizes) >= |sizes|
  {
    if sizes != [] { SeenAll(rs, sizes[..|sizes| - 1]); }
  }

  /** The records before the next call are those this one left. */
  lemma {:induction false} FromLater(list: seq<Entry>, offset: nat, k: nat)
    requires Listing(list) && k <= |From(list, offset)|
    ensures From(list, offset + k) == From(list, offset)[k..]
  {
    if k > 0 {
      FromLater(list, offset, k - 1);
      LowIs(offset + k - 1);
      LowLater(list, offset, k - 1);
    }
  }

  lemma {:induction false} LowLater(list: seq<Entry>, offset: nat, k: nat)
    requires Listing(list) && k < |From(list, offset)|
    ensures Low(offset + k) == Low(offset) + k
  {
    if k > 0 {
      LowLater(list, offset, k - 1);
      LowIs(offset + k - 1);
    }
  }

  /** One call, with a buffer of `n` bytes: the bytes it gave. */
  method Call(dir: OpenDir, list: seq<Entry>, n: nat, ghost left: seq<Block>) returns (bytes: Block, rc: int)
    requires Listing(list) && left == From(list, dir.offset)
    modifies dir
    ensures bytes == Cat(left[..Fits(left, n)]) && dir.offset == old(dir.offset) + Fits(left, n)
    ensures rc == if Fits(left, n) == 0 && left != [] then EINVAL else |bytes|
  {
    var buf := new byte[n];
    rc := dir.Getdents(Listed(list), buf, n);
    assert left[..0] == [];
    bytes := if rc > 0 then buf[..rc] else [];
  }

  /** Any sequence of calls of vfs_getdents on an unchanging directory, with buffers of any sizes: the bytes they give,
      end to end, are the first so many records, each once, in order. If each buffer holds the next record and there
      are enough calls, every record has come, and the next call gives 0. */
  method CallAll(dir: OpenDir, list: seq<Entry>, sizes: seq<nat>, last: nat) returns (bytes: Block, rc: int)
    requires Listing(list)
    modifies dir
    ensures var rs := From(list, old(dir.offset)); bytes == Cat(rs[..Seen(rs, sizes)])
    ensures var rs := From(list, old(dir.offset)); Roomy(rs, sizes) && |sizes| >= |rs| ==> bytes == Cat(rs) && rc == 0
  {
    ghost var rs, first, at, none := From(list, dir.offset), dir.offset, 0, [];
    bytes, at := Gather(dir, list, sizes, rs, first);
    GotAll(rs, sizes, at, bytes);
    none, rc := CallAfter(dir, list, last, rs, at, first);
  }

  method Gather(dir: OpenDir, list: seq<Entry>, sizes: seq<nat>, ghost rs: seq<Block>, ghost first: nat)
      returns (bytes: Block, ghost at: nat)
    requires Listing(list) && rs == From(list, first) && dir.offset == first
    modifies dir
    ensures Got(rs, sizes, |sizes|, at, bytes) && at <= |rs| && dir.offset == first + at
  {
    bytes, at := [], 0;
    GotNone(rs, sizes);
    for i := 0 to |sizes|
      invariant Got(rs, sizes, i, at, bytes) && at <= |rs| && dir.offset == first + at
    {
      bytes, at := GatherOne(dir, list, sizes, i, bytes, rs, at, first);
    }
  }

  method GatherOne(dir: OpenDir, list: seq<Entry>, sizes: seq<nat>, i: nat, bytes: Block, ghost rs: seq<Block>,
      ghost at: nat, ghost first: nat)
    returns (bytes': Block, ghost at': nat)
    requires Listing(list) && rs == From(list, first) && at <= |rs| && dir.offset == first + at && i < |sizes| &&
        Got(rs, sizes, i, at, bytes)
    modifies dir
    ensures Got(rs, sizes, i + 1, at', bytes') && at' <= |rs| && dir.offset == first + at'
  {
    ghost var k := Fits(rs[at..], sizes[i]);
    var more, r := CallAfter(dir, list, sizes[i], rs, at, first);
    GotMore(rs, sizes, i, at, bytes, k, more);
    bytes', at' := bytes + more, at + k;
  }

  /** The bytes after `i` of the calls. */
  ghost predicate Got(rs: seq<Block>, sizes: seq<nat>, i: nat, at: nat, bytes: Block) {
    i <= |sizes| && at == Seen(rs, sizes[..i]) && bytes == Cat(rs[..at])
  }

  lemma GotNone(rs: seq<Block>, sizes: seq<nat>)
    ensures Got(rs, sizes, 0, 0, [])
  {
    assert rs[..0] == [] && sizes[..0] == [];
  }

  lemma GotMore(rs: seq<Block>, sizes: seq<nat>, i: nat, at: nat, bytes: Block, k: nat, more: Block)
    requires Got(rs, sizes, i, at, bytes) && i < |sizes| && k == Fits(rs[at..], sizes[i]) && more == Cat(rs[at..][..k])
    ensures Got(rs, sizes, i + 1, at + k, bytes + more)
  {
    assert sizes[..i + 1][..i] == sizes[..i];
    TwoParts(rs, at, k);
  }

  lemma GotAll(rs: seq<Block>, sizes: seq<nat>, at: nat, bytes: Block)
    requires Got(rs, sizes, |sizes|, at, bytes)
    ensures bytes == Cat(rs[..Seen(rs, sizes)]) && at == Seen(rs, sizes)
    ensures Roomy(rs, sizes) && |sizes| >= |rs| ==> at == |rs| && bytes == Cat(rs)
  {
    assert sizes[..|sizes|] == sizes;
    if Roomy(rs, sizes) && |sizes| >= |rs| {
      SeenAll(rs, sizes);
      assert rs[..|rs|] == rs;
    }
  }

  /** A call after others that passed over `at` records. */
  method CallAfter(dir: OpenDir, list: seq<Entry>, n: nat, ghost rs: seq<Block>, ghost at: nat, ghost first: nat)
      returns (bytes: Block, rc: int)
    requires Listing(list) && rs == From(list, first) && at <= |rs| && dir.offset == first + at
    modifies dir
    ensures var k := Fits(rs[at..], n); bytes == Cat(rs[at..][..k]) && dir.offset == first + at + k
    ensures at == |rs| ==> rc == 0
  {
    FromLater(list, first, at);
    ghost var left := rs[at..];
    bytes, rc := Call(dir, list, n, left);
  }

  // ------------------------------------------------------------ the reader (user/ls.c)

  /** The names ls prints of entries `i` to `k`: all of them, or those that do not begin with a dot. */
  function Printed(list: seq<Entry>, i: nat, k: nat, all: bool): seq<seq<byte>>
    requires i <= k <= |list|
  {
    if i == k then [] else
      var e := list[k - 1];
      Printed(list, i, k - 1, all) + if all || !Hidden(e.name) then [e.name] else []
  }

  predicate Hidden(name: seq<byte>) {
    name != [] && name[0] == 0x2E
  }

  /** Every name is printed as often as it is there; without -a none that begins with a dot is. */
  lemma {:induction false} PrintedIs(list: seq<Entry>, i: nat, k: nat, all: bool, name: seq<byte>)
    requires i <= k <= |list|
    ensures multiset(Printed(list, i, k, all))[name] ==
      if !all && name != [] && name[0] == 0x2E then 0 else multiset(NamesOf(list[i..k]))[name]
  {
    if i < k {
      PrintedIs(list, i, k - 1, all, name);
      NamesMore(list[i..k - 1], list[k - 1]);
      assert list[i..k] == list[i..k - 1] + [list[k - 1]];
    }
  }

  function NamesOf(list: seq<Entry>): (r: seq<seq<byte>>)
    ensures |r| == |list| && forall i :: 0 <= i < |list| ==> r[i] == list[i].name
  {
    seq(|list|, i requires 0 <= i < |list| => list[i].name)
  }

  lemma NamesMore(list: seq<Entry>, e: Entry)
    ensures NamesOf(list + [e]) == NamesOf(list) + [e.name]
  {
  }

  /** A record gives back its length, its type and, up to the NUL, its name. */
  lemma RecordRead(e: Entry, idx: nat)
    requires CName(e.name)
    ensures var b := Rec(e, idx);
      && |b| > HDR + |e.name| && Rd16(b, 16) == |b|
      && b[HDR..HDR + |e.name|] == e.name && b[HDR + |e.name|] == 0
      && b[18] == match e.kind case Missing => 0 case Dir => 4 case Chr => 2 case Other => 8
  {
    ReclenIs(|e.name|);
    var r, b := Reclen(|e.name|), Rec(e, idx);
    var h := Head(e, idx);
    assert h[16..18] == Le(r, 2);
    assert ByteAt(r, 1) == ByteAt(r / 0x100, 0);
    assert b[16] == h[16] && b[17] == h[17];
  }

  /** Its inode number and offset are the index after this one. */
  lemma RecordIndex(e: Entry, idx: nat)
    requires idx < U32
    ensures |Rec(e, idx)| >= 16 && Value(Rec(e, idx)[..8]) == idx + 1 && Value(Rec(e, idx)[8..16]) == idx + 1
  {
    ReclenIs(|e.name|);
    assert Pow256(8) > U32;
    LeValue(idx + 1, 8);
    var h, b := Head(e, idx), Rec(e, idx);
    assert b[..8] == h[..8] == Le(idx + 1, 8) && b[8..16] == h[8..16] == Le(idx + 1, 8);
  }

  /** The C string at `at`. */
  method CString(buf: array<byte>, at: nat, ghost name: seq<byte>) returns (nm: seq<byte>)
    requires CName(name) && at + |name| < buf.Length
    requires buf[at..at + |name|] == name && buf[at + |name|] == 0
    ensures nm == name
  {
    nm := [];
    while buf[at + |nm|] != 0
      invariant |nm| <= |name| && nm == name[..|nm|]
      decreases |name| - |nm|
    {
      assert buf[at + |nm|] == buf[at..at + |name|][|nm|];
      nm := nm + [buf[at + |nm|]];
    }
  }

  /** Where record `j` begins. */
  function Off(rs: seq<Block>, j: nat): nat
    requires j <= |rs|
  {
    if j == 0 then 0 else Off(rs, j - 1) + |rs[j - 1]|
  }

  lemma {:induction false} OffIs(rs: seq<Block>, j: nat)
    requires j <= |rs|
    ensures Off(rs, j) == |Cat(rs[..j])|
  {
    if j == 0 {
      assert rs[..0] == [];
    } else {
      OffIs(rs, j - 1);
      CatNext(rs, j - 1);
    }
  }

  lemma CatNext(rs: seq<Block>, j: nat)
    requires j < |rs|
    ensures Cat(rs[..j + 1]) == Cat(rs[..j]) + rs[j]
  {
    var one: seq<Block> := [rs[j]];
    assert Cat(one) == rs[j] by { assert |one[1..]| == 0; }
    CatJoin(rs[..j], one);
    assert rs[..j] + one == rs[..j + 1];
  }

  /** Record `j` of the bytes of one call begins where those before it end. */
  lemma RecordAt(rs: seq<Block>, j: nat)
    requires j < |rs|
    ensures Off(rs, j) + |rs[j]| == Off(rs, j + 1) <= |Cat(rs)| && Cat(rs)[Off(rs, j)..Off(rs, j + 1)] == rs[j]
    ensures |Cat(rs)| == Off(rs, j + 1) + |Cat(rs[j + 1..])|
  {
    OffIs(rs, j);
    OffIs(rs, j + 1);
    CatNext(rs, j);
    CatJoin(rs[..j + 1], rs[j + 1..]);
    assert rs[..j + 1] + rs[j + 1..] == rs;
  }

  /** Every record of a call begins at a multiple of 8. */
  lemma {:induction false} Aligned(rs: seq<Block>, list: seq<Entry>, i: nat, j: nat)
    requires Part(rs, list, i) && j <= |rs|
    ensures Off(rs, j) % 8 == 0
  {
    if j > 0 {
      Aligned(rs, list, i, j - 1);
      assert RecAt(rs, list, i, j - 1);
      ReclenIs(|list[i + j - 1].name|);
    }
  }

  lemma PartEmpty(rs: seq<Block>, list: seq<Entry>, i: nat)
    requires Part(rs, list, i)
    ensures Cat(rs) == [] <==> rs == []
  {
    if rs != [] {
      assert RecAt(rs, list, i, 0);
      ReclenIs(|list[i].name|);
    }
  }

  /** A record stands at `off` in these bytes. */
  ghost predicate Stands(s: Block, off: nat, name: seq<byte>, next: nat) {
    && off + HDR + |name| < next <= |s| && off + Rd16([s[off + 16], s[off + 17]], 0) == next
    && s[off + HDR..off + HDR + |name|] == name && s[off + HDR + |name|] == 0
  }

  lemma RecordStands(s: Block, off: nat, e: Entry, idx: nat)
    requires CName(e.name) && off + Reclen(|e.name|) <= |s| && s[off..off + Reclen(|e.name|)] == Rec(e, idx)
    ensures Stands(s, off, e.name, off + Reclen(|e.name|))
  {
    RecordRead(e, idx);
    ReclenIs(|e.name|);
    var t, end := Rec(e, idx), HDR + |e.name|;
    SliceIn(s, off, t, HDR, end);
    assert s[off + 16] == t[16] && s[off + 17] == t[17] && s[off + end] == t[end];
  }

  lemma SliceIn(s: Block, off: nat, t: Block, a: nat, b: nat)
    requires a <= b < |t| && off + |t| <= |s| && s[off..off + |t|] == t
    ensures s[off + a..off + b] == t[a..b] && forall i :: 0 <= i < |t| ==> s[off + i] == t[i]
  {
    forall i | 0 <= i < |t| ensures s[off + i] == t[i] {
      assert s[off..off + |t|][i] == s[off + i];
    }
  }

  /** The bytes of one call hold record `j` at its place, and end after the last. */
  lemma StandsAt(s: Block, rs: seq<Block>, j: nat, list: seq<Entry>, i: nat)
    requires s == Cat(rs) && Listing(list) && Part(rs, list, i) && j < |rs|
    ensures Stands(s, Off(rs, j), list[i + j].name, Off(rs, j + 1)) && (Off(rs, j + 1) == |s| <==> j + 1 == |rs|)
  {
    assert RecAt(rs, list, i, j);
    RecordAt(rs, j);
    PartSlice(rs, list, i, j + 1, |rs|, rs[j + 1..], i + j + 1);
    PartEmpty(rs[j + 1..], list, i + j + 1);
    RecordStands(s, Off(rs, j), list[i + j], i + j);
  }

  /** One record of the walk: its name, and where the next begins. */
  method Read(buf: array<byte>, n: nat, off: nat, ghost name: seq<byte>, ghost next: nat)
    returns (nm: seq<byte>, next': nat)
    requires n <= buf.Length && CName(name) && Stands(buf[..n], off, name, next)
    ensures nm == name && next' == next
  {
    assert buf[off + HDR..off + HDR + |name|] == buf[..n][off + HDR..off + HDR + |name|];
    nm := CString(buf, off + HDR, name);
    next' := off + Rd16([buf[off + 16], buf[off + 17]], 0);
  }

  /** The d_reclen walk over one buffer: the names of its records, in order. */
  method Walk(buf: array<byte>, n: nat, all: bool, ghost rs: seq<Block>, ghost list: seq<Entry>, ghost i: nat)
    returns (names: seq<seq<byte>>)
    requires n <= buf.Length && buf[..n] == Cat(rs) && Listing(list) && Part(rs, list, i)
    ensures names == Printed(list, i, i + |rs|, all)
  {
    var off: nat := 0;
    ghost var j := 0;
    names := [];
    PartEmpty(rs, list, i);
    while off < n
      invariant j <= |rs| && off == Off(rs, j) <= n && (off == n <==> j == |rs|) &&
          names == Printed(list, i, i + j, all)
      decreases n - off
    {
      StandsAt(buf[..n], rs, j, list, i);
      var nm, next := Read(buf, n, off, list[i + j].name, Off(rs, j + 1));
      off := next;
      if all || !Hidden(nm) { names := names + [nm]; }
      j := j + 1;
    }
  }

  lemma {:induction false} ShownJoin(list: seq<Entry>, i: nat, m: nat, k: nat, all: bool)
    requires i <= m <= k <= |list|
    ensures Printed(list, i, m, all) + Printed(list, m, k, all) == Printed(list, i, k, all)
  {
    if m < k {
      ShownJoin(list, i, m, k - 1, all);
    }
  }

  /** list_dir of ls over an unchanging directory: the names of all entries, in index order, each once. */
  method ListDir(list: seq<Entry>, all: bool) returns (names: seq<seq<byte>>, rc: int)
    requires Listing(list)
    ensures rc == 0 && names == Printed(list, 0, |list|, all)
  {
    var dir := new OpenDir();
    var buf := new byte[2048];
    names := [];
    var n := 1;
    while n != 0
      invariant dir.offset <= |list| && names == Printed(list, 0, dir.offset, all) && (n == 0 ==> dir.offset == |list|)
      decreases |list| - dir.offset, if n == 0 then 0 else 1
    {
      var more;
      n, more := Batch(dir, list, buf, all);
      if n < 0 { return names, 1; }
      names := names + more;
    }
    rc := 0;
  }

  /** One call and the walk over what it gave. */
  method Batch(dir: OpenDir, list: seq<Entry>, buf: array<byte>, all: bool) returns (n: int, more: seq<seq<byte>>)
    requires Listing(list) && dir.offset <= |list| && buf.Length == 2048
    modifies dir, buf
    ensures old(dir.offset) <= dir.offset <= |list| && n >= 0
    ensures if n == 0 then dir.offset == old(dir.offset) == |list| else dir.offset > old(dir.offset)
    ensures Printed(list, 0, old(dir.offset), all) + more == Printed(list, 0, dir.offset, all)
  {
    ghost var at, rs := dir.offset, From(list, dir.offset);
    n := dir.Getdents(Listed(list), buf, 2048);
    ghost var k := Fits(rs, 2048);
    RoomForOne(list, at, rs, k);
    more := [];
    if n > 0 {
      more := Walk(buf, n, all, rs[..k], list, at);
      ShownJoin(list, 0, at, at + k, all);
    }
  }

  lemma FirstSmall(rs: seq<Block>, list: seq<Entry>, i: nat)
    requires Listing(list) && Part(rs, list, i) && rs != []
    ensures |rs[0]| <= 2048
  {
    assert RecAt(rs, list, i, 0);
    ReclenIs(|list[i].name|);
  }

  /** A buffer of 2048 bytes holds a record of any name. */
  lemma RoomForOne(list: seq<Entry>, at: nat, rs: seq<Block>, k: nat)
    requires Listing(list) && at <= |list| && rs == From(list, at) && k == Fits(rs, 2048)
    ensures |rs| == |list| - at && Part(rs[..k], list, at) && (k == 0 <==> at == |list|) &&
        (Cat(rs[..k]) == [] <==> k == 0)
  {
    PartSlice(Recs(list), list, 0, at, |list|, rs, at);
    if at < |list| { FirstSmall(rs, list, at); }
    PartSlice(rs, list, at, 0, k, rs[..k], at);
    PartEmpty(rs[..k], list, at);
  }
}
