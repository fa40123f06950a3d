/** The sliding byte buffer: a byte queue kept in one array, which is compacted
    and, if the buffer is dynamic, grown to make room. */
module ByteBuffers {
  import opened Basics

  datatype Mode = Static | Dynamic | Partition

  const SIZE_MAX_PLUS_1 := 0x1_0000_0000_0000_0000

  class ByteBuffer {
    const mode: Mode
    const maxLen: nat
    const blocksize: nat
    const startLen: nat
    var data: array<Byte>
    var head: nat
    var used: nat
    var actuallyUsed: nat
    var loops: int

    ghost predicate Valid()
      reads this`data, this`head, this`used, this`actuallyUsed
    {
      && head + used == actuallyUsed <= data.Length
      && (mode.Static? ==> data.Length == startLen)
      && (mode.Dynamic? && maxLen > 0 ==> data.Length <= Max(startLen, maxLen + Max(maxLen, blocksize)))
    }

    /** The queue: what has been written and not read yet. */
    ghost function Content(): seq<Byte>
      requires Valid()
      reads this`data, this`head, this`used, this`actuallyUsed, data
    {
      data[head..head + used]
    }

    constructor Create(maxLen: nat)
      ensures Valid() && fresh(data) && Content() == [] && mode == Static && data.Length == maxLen && loops == 0
    {
      mode, this.maxLen, blocksize, startLen := Static, 0, 0, maxLen;
      data := new Byte[maxLen](_ => 0);
      head, used, actuallyUsed, loops := 0, 0, 0, 0;
    }

    constructor CreateDynamic(blocksize: nat, startLen: nat, maxLen: nat)
      ensures Valid() && fresh(data) && Content() == [] && mode == Dynamic && loops == 0
      ensures this.maxLen == maxLen && this.blocksize == blocksize && this.startLen == startLen
      ensures data.Length == startLen
    {
      mode, this.maxLen, this.blocksize, this.startLen := Dynamic, maxLen, blocksize, startLen;
      data := new Byte[startLen](_ => 0);
      head, used, actuallyUsed, loops := 0, 0, 0, 0;
    }

    constructor CreatePartition(data: array<Byte>)
      ensures Valid() && this.data == data && Content() == data[..] && mode == Partition && loops == 0
      ensures head == 0 && actuallyUsed == data.Length
    {
      mode, maxLen, blocksize, startLen := Partition, 0, 0, 0;
      this.data := data;
      head, used, actuallyUsed, loops := 0, data.Length, data.Length, 0;
    }

    /** Point a partition at other data; any other buffer refuses. */
    method SetPartitionData(data: array<Byte>) returns (ok: bool)
      requires Valid()
      modifies this
      ensures Valid() && ok == mode.Partition? && loops == old(loops)
      ensures ok ==> this.data == data && Content() == data[..] && head == 0
      ensures !ok ==> this.data == old(this.data) && Content() == old(Content())
    {
      if !mode.Partition? {
        return false;
      }
      this.data := data;
      ok := ResetPartitionData();
    }

    method ResetPartitionData() returns (ok: bool)
      requires mode.Partition? || Valid()
      modifies this`head, this`used, this`actuallyUsed
      ensures Valid() && ok == mode.Partition?
      ensures ok ==> Content() == data[..] && head == 0
      ensures !ok ==> unchanged(this)
    {
      if !mode.Partition? {
        return false;
      }
      head, used, actuallyUsed := 0, data.Length, data.Length;
      return true;
    }

    method SetLoops(loops: int)
      requires Valid()
      modifies this`loops
      ensures Valid() && this.loops == loops && Content() == old(Content())
    {
      this.loops := loops;
    }

    /** Discard up to n bytes; the number left is returned. */
    method Toss(n: nat) returns (left: nat)
      requires Valid()
      modifies this`head, this`used
      ensures Valid() && left == |Content()|
      ensures Content() == old(Content())[Min(n, |old(Content())|)..]
    {
      if used < 1 {
        used := 0;
        return 0;
      }
      var reading := if used >= n then n else used;
      used := used - reading;
      head := head + reading;
      left := used;
    }

    method Read(n: nat) returns (out: seq<Byte>)
      requires Valid()
      modifies this`head, this`used
      ensures Valid()
      ensures out == old(Content())[..Min(n, |old(Content())|)]
      ensures Content() == old(Content())[Min(n, |old(Content())|)..]
    {
      if used < 1 {
        used := 0;
        return [];
      }
      var reading := if used >= n then n else used;
      out := data[head..head + reading];
      used := used - reading;
      head := head + reading;
    }

    method Peek(n: nat) returns (out: seq<Byte>)
      requires Valid()
      modifies this`used
      ensures Valid() && unchanged(this)
      ensures out == Content()[..Min(n, |Content()|)]
    {
      if used < 1 {
        used := 0;
        return [];
      }
      var reading := if used >= n then n else used;
      out := data[head..head + reading];
    }

    method Zero()
      requires Valid()
      modifies this`head, this`used, this`actuallyUsed
      ensures Valid() && Content() == []
    {
      used, actuallyUsed, head := 0, 0, 0;
    }

    /** Whether a write of n bytes is accepted, when growing would succeed iff alloc. */
    ghost predicate Accepts(n: nat, alloc: bool)
      requires Valid()
      reads this
    {
      AcceptsAt(used, n, alloc)
    }

    /** The same of a buffer of this size that holds u bytes. */
    ghost predicate AcceptsAt(u: nat, n: nat, alloc: bool)
      reads this
    {
      && !mode.Partition?
      && (u + n <= data.Length || (mode.Dynamic? && (maxLen == 0 || u + n <= maxLen) && alloc))
    }

    /** The room the buffer reports, in size_t arithmetic. */
    function Freespace(): nat
      requires Valid()
      reads this
    {
      if mode.Dynamic? then (if maxLen > 0 then (maxLen - used) % SIZE_MAX_PLUS_1 else 1000000)
      else data.Length - used
    }

    /** A write within the reported room is accepted, unless a dynamic buffer holds
        more than its maximum: then the report has wrapped around. */
    lemma FreespaceHonestIff()
      requires Valid() && !mode.Partition? && data.Length < SIZE_MAX_PLUS_1 / 2 && maxLen < SIZE_MAX_PLUS_1
      ensures (forall n :: 0 <= n <= Freespace() ==> Accepts(n, true)) <==> !(mode.Dynamic? && 0 < maxLen < used)
    {
      if mode.Dynamic? && 0 < maxLen < used {
        assert Freespace() == SIZE_MAX_PLUS_1 - (used - maxLen);
        assert !Accepts(Freespace(), true);
      }
    }

    /** And what is reported is all that is accepted: of a static buffer always; of a dynamic
        one up to its maximum unless its array is larger. One without maximum reports
        1000000 and accepts any number of bytes. */
    lemma FreespaceIsAll(n: nat, alloc: bool)
      requires Valid() && !mode.Partition? && data.Length < 0x8000_0000_0000_0000 && maxLen < 0x1_0000_0000_0000_0000
      ensures mode.Static? ==> (Accepts(n, alloc) <==> n <= Freespace())
      ensures mode.Dynamic? && 0 < maxLen && used <= maxLen ==>
        && Freespace() == maxLen - used
        && (Accepts(n, true) <==> n <= Freespace() || used + n <= data.Length)
      ensures mode.Dynamic? && maxLen == 0 ==> Freespace() == 1000000 && Accepts(n, true)
      ensures mode.Dynamic? && 0 < maxLen < used ==> Freespace() == 0x1_0000_0000_0000_0000 - (used - maxLen)
    {
    }

    /** When a write leaves a dynamic buffer with more than its maximum: when the bytes
        fit what is allocated already. */
    lemma OverfillsIff(n: nat, alloc: bool)
      requires Valid() && mode.Dynamic? && 0 < maxLen && used <= maxLen
      ensures Accepts(n, alloc) && used + n > maxLen <==> maxLen < used + n <= data.Length
    {
    }

    /** Move the content to the start of the array. */
    method Compact()
      requires Valid() && !mode.Partition?
      modifies this`head, this`actuallyUsed, data
      ensures Valid() && head == 0 && Content() == old(Content())
    {
      ghost var was := Content();
      if head > 0 {
        MoveDown(was);
      }
      head := 0;
      actuallyUsed := used;
      assert data[0..used] == data[..used];
    }

    /** Copy the content to the front of the array, byte by byte. */
    method MoveDown(ghost was: seq<Byte>)
      requires Valid() && was == Content()
      modifies data
      ensures data[..used] == was
    {
      hide *;
      ContentAt(was);
      var i := 0;
      while i < used
        invariant 0 <= i <= used
        invariant data[..i] == was[..i] && data[head + i..head + used] == was[i..]
      {
        MoveOne(was, i);
        data[i] := data[head + i];
        i := i + 1;
      }
    }

    lemma ContentAt(was: seq<Byte>)
      requires Valid() && was == Content()
      ensures |was| == used && head + used <= data.Length && data[head..head + used] == was
    {
    }

    lemma MoveOne(was: seq<Byte>, i: nat)
      requires |was| == used && head + used <= data.Length && i < used && data[head + i..head + used] == was[i..]
      ensures data[head + i] == was[i] && data[head + (i + 1)..head + used] == was[i + 1..]
      ensures was[..i + 1] == was[..i] + [was[i]]
    {
      assert data[head + i..head + used][0] == was[i];
      assert data[head + (i + 1)..head + used] == data[head + i..head + used][1..];
    }

    /** Enlarge the array of a compacted buffer so that n more bytes fit, if memory allows. */
    method Grow(n: nat, alloc: bool) returns (ok: bool)
      requires Valid() && mode.Dynamic? && head == 0
      requires data.Length - used < n && (maxLen == 0 || used + n <= maxLen)
      modifies this`data
      ensures Valid() && ok == alloc && head == 0 && Content() == old(Content())
      ensures ok ==> fresh(data) && data.Length == old(data.Length) + Max(n, blocksize)
      ensures !ok ==> data == old(data)
    {
      var newSize := data.Length + n;
      if data.Length + blocksize > newSize {
        newSize := data.Length + blocksize;
      }
      if !alloc {
        return false;
      }
      var old' := data;
      data := new Byte[newSize](i requires 0 <= i < newSize reads old' => if i < old'.Length then old'[i] else 0);
      return true;
    }

    /** Append bytes, or leave the content as it is. alloc says whether the memory
        allocator would serve a request to grow. */
    method Write(bytes: seq<Byte>, alloc: bool) returns (w: nat)
      requires Valid()
      modifies this, data
      ensures Valid() && (data == old(data) || fresh(data)) && loops == old(loops)
      ensures old(Accepts(|bytes|, alloc)) ==> Content() == old(Content()) + bytes && w == |Content()|
      ensures !old(Accepts(|bytes|, alloc)) ==> Content() == old(Content()) && w == 0
      ensures old(mode.Dynamic? && 0 < maxLen && used <= maxLen) ==>
        (|Content()| > maxLen <==> maxLen < old(used) + |bytes| <= old(data.Length))
      ensures data.Length == old(data.Length) +
        if old(Accepts(|bytes|, alloc)) && |bytes| > old(data.Length - used) then Max(|bytes|, blocksize) else 0
    {
      if mode.Partition? {
        return 0;
      }
      var n := |bytes|;
      if n == 0 {
        return used;
      }
      if data.Length - actuallyUsed < n {
        Compact();
      }
      if mode.Dynamic? && data.Length - used < n && (maxLen == 0 || used + n <= maxLen) {
        var ok := Grow(n, alloc);
        if !ok {
          return 0;
        }
      }
      if data.Length - used < n {
        return 0;
      }
      Append(bytes);
      w := used;
    }

    method Append(bytes: seq<Byte>)
      requires Valid() && !mode.Partition? && |bytes| <= data.Length - actuallyUsed
      modifies this`used, this`actuallyUsed, data
      ensures Valid() && Content() == old(Content()) + bytes
    {
      var at := actuallyUsed;
      ghost var was := data[..at];
      var i := 0;
      while i < |bytes|
        invariant 0 <= i <= |bytes| && unchanged(this)
        invariant data[..at + i] == was + bytes[..i]
      {
        data[at + i] := bytes[i];
        assert data[..at + i + 1] == data[..at + i] + [bytes[i]];
        OneMore(was, bytes, i);
        i := i + 1;
      }
      used := used + |bytes|;
      actuallyUsed := actuallyUsed + |bytes|;
      assert data[..actuallyUsed] == was + bytes;
      Behind(data[..actuallyUsed], was, bytes, head);
    }

    lemma OneMore(was: seq<Byte>, bytes: seq<Byte>, i: nat)
      requires i < |bytes|
      ensures was + bytes[..i + 1] == was + bytes[..i] + [bytes[i]]
    {
    }

    lemma Behind(all: seq<Byte>, was: seq<Byte>, bytes: seq<Byte>, head: nat)
      requires all == was + bytes && head <= |was|
      ensures all[head..] == was[head..] + bytes
    {
    }

    /** Append bytes, at the price of everything before them if need be. */
    method Zwrite(bytes: seq<Byte>, alloc: bool) returns (w: nat)
      requires Valid()
      modifies this, data
      ensures Valid() && (data == old(data) || fresh(data)) && loops == old(loops)
      ensures mode.Partition? ==> w == 0 && Content() == old(Content())
      ensures old(Accepts(|bytes|, alloc)) ==> Content() == old(Content()) + bytes && w == |Content()|
      ensures !mode.Partition? && !old(Accepts(|bytes|, alloc)) ==>
        Content() == (if old(AcceptsAt(0, |bytes|, alloc)) then bytes else []) && w == |Content()|
    {
      if mode.Partition? {
        return 0;
      }
      w := Write(bytes, alloc);
      if w == 0 {
        Zero();
        w := Write(bytes, alloc);
      }
    }

    /** Append bytes, tossing as many from the front if need be. What is left is a
        suffix of old content and new bytes, all of the new bytes if they fit. */
    method SlideWrite(bytes: seq<Byte>, alloc: bool) returns (w: nat)
      requires Valid()
      modifies this, data
      ensures Valid() && (data == old(data) || fresh(data)) && loops == old(loops)
      ensures mode.Partition? ==> w == 0 && Content() == old(Content())
      ensures old(Accepts(|bytes|, alloc)) ==> Content() == old(Content()) + bytes && w == |Content()|
      ensures !mode.Partition? && !old(Accepts(|bytes|, alloc)) ==>
        var kept := old(Content())[Min(|bytes|, old(used))..];
        if old(AcceptsAt(|kept|, |bytes|, alloc)) then Content() == kept + bytes && w == |Content()|
        else Content() == kept && w == 0 && |bytes| > old(data.Length)
    {
      if mode.Partition? {
        return 0;
      }
      hide *;
      ContentSize();
      AcceptsIs(|bytes|, alloc);
      w := Write(bytes, alloc);
      if w == 0 {
        ContentSize();
        MinIs(|bytes|, used);
        var _ := Toss(|bytes|);
        ContentSize();
        AcceptsIs(|bytes|, alloc);
        w := Write(bytes, alloc);
      }
    }

    lemma AcceptsIs(n: nat, alloc: bool)
      requires Valid()
      ensures Accepts(n, alloc) <==> AcceptsAt(used, n, alloc)
      ensures forall u: nat :: AcceptsAt(u, n, alloc) <==>
        && !mode.Partition?
        && (u + n <= data.Length || (mode.Dynamic? && (maxLen == 0 || u + n <= maxLen) && alloc))
    {
    }

    lemma ContentSize()
      requires Valid()
      ensures |Content()| == used <= data.Length
    {
    }

    /** Read, starting over at the end of the data while loops are left. */
    method ReadLoop(n: nat) returns (out: seq<Byte>)
      requires Valid()
      modifies this`head, this`used, this`loops
      ensures Valid() && data[..] == old(data[..])
      ensures Looped(data[..actuallyUsed], old(head), old(loops), n) == (out, head, loops)
    {
      hide *;
      Unread();
      ghost var d := data[..actuallyUsed];
      LoopedIs(d, head, loops, n);
      out := Read(n);
      if |out| == 0 {
        if loops > 0 {
          loops := loops - 1;
        }
        if loops == 0 {
          Unread();
          return [];
        }
        Rewind();
        out := Read(n);
      }
      Unread();
    }

    lemma Unread()
      requires Valid()
      ensures head + used == actuallyUsed <= data.Length && Content() == data[..actuallyUsed][head..]
    {
    }

    /** Go back to the start of the data. */
    method Rewind()
      requires Valid()
      modifies this`head, this`used
      ensures Valid() && head == 0 && used == actuallyUsed && Content() == data[..actuallyUsed]
    {
      head := 0;
      used := actuallyUsed;
    }

    /** Any number of looped reads, one for each size. */
    method ReadLoops(sizes: seq<nat>) returns (all: seq<Byte>)
      requires Valid()
      modifies this`head, this`used, this`loops
      ensures Valid() && data[..] == old(data[..])
      ensures LoopedRun(data[..actuallyUsed], old(head), old(loops), sizes) == (all, head, loops)
      decreases |sizes|
    {
      if sizes == [] {
        return [];
      }
      var out := ReadLoop(sizes[0]);
      var rest := ReadLoops(sizes[1..]);
      all := out + rest;
    }
  }

  /** A buffer can come to hold more than its maximum: growth rounds up to a block,
      and whatever fits the allocation is accepted. */
  method HoldMoreThanMax() returns (b: ByteBuffer)
    ensures fresh(b) && b.Valid() && 0 < b.maxLen < |b.Content()|
  {
    b := new ByteBuffer.CreateDynamic(100, 1, 10);
    var w := b.Write([1, 2], true);
    w := b.Write([1, 2, 3, 4, 5, 6, 7, 8, 9], true);
  }

  // ---- any run of writes and reads ----

  datatype Op = Put(bytes: seq<Byte>, alloc: bool) | Take(n: nat)

  /** The bytes of the writes that were accepted; ws are what the operations returned. */
  function Accepted(ops: seq<Op>, ws: seq<nat>): seq<Byte>
    requires |ops| == |ws|
  {
    if ops == [] then []
    else
      var n := |ops| - 1;
      Accepted(ops[..n], ws[..n]) + if ops[n].Put? && ws[n] > 0 then ops[n].bytes else []
  }

  /** Over any run the bytes read, and then those still there, are the bytes that were
      there and then those accepted, in order. */
  method Run(b: ByteBuffer, ops: seq<Op>) returns (off: seq<Byte>, ws: seq<nat>)
    requires b.Valid()
    modifies b, b.data
    ensures b.Valid() && (b.data == old(b.data) || fresh(b.data)) && |ws| == |ops|
    ensures off + b.Content() == old(b.Content()) + Accepted(ops, ws)
  {
    hide *;
    off, ws := [], [];
    ghost var was := b.Content();
    NoneAccepted(ops, was);
    var i := 0;
    while i < |ops|
      invariant 0 <= i == |ws| <= |ops| && b.Valid() && (b.data == old(b.data) || fresh(b.data))
      invariant off + b.Content() == was + Accepted(ops[..i], ws)
    {
      ghost var before, done, acc := b.Content(), ws, Accepted(ops[..i], ws);
      match ops[i] {
        case Put(bytes, alloc) =>
          var w := b.Write(bytes, alloc);
          ws := ws + [w];
          NextAccepted(ops, done, w);
          Appended(off, before, b.Content(), bytes, w, was, acc);
        case Take(n) =>
          MinIs(n, |before|);
          var out := b.Read(n);
          ws := ws + [|out|];
          NextAccepted(ops, done, |out|);
          Parted(off, out, before, b.Content(), n);
          off := off + out;
      }
      i := i + 1;
    }
    assert ops[..i] == ops;
  }

  lemma MinIs(n: nat, k: nat)
    ensures 0 <= Min(n, k) <= k && Min(n, k) == if n < k then n else k
  {
  }

  lemma NoneAccepted(ops: seq<Op>, was: seq<Byte>)
    ensures ops[..0] == [] && [] + was == was + Accepted([], [])
  {
  }

  lemma NextAccepted(ops: seq<Op>, ws: seq<nat>, w: nat)
    requires |ws| < |ops|
    ensures
      var i := |ws|;
      Accepted(ops[..i + 1], ws + [w]) ==
      Accepted(ops[..i], ws) + if ops[i].Put? && w > 0 then ops[i].bytes else []
  {
    var o, v := ops[..|ws| + 1], ws + [w];
    AcceptedEnd(o, v);
    hide Accepted;
    assert o[..|ws|] == ops[..|ws|] && v[..|ws|] == ws && o[|ws|] == ops[|ws|] && v[|ws|] == w;
  }

  lemma AcceptedEnd(ops: seq<Op>, ws: seq<nat>)
    requires 0 < |ops| == |ws|
    ensures
      var n := |ops| - 1;
      Accepted(ops, ws) == Accepted(ops[..n], ws[..n]) + if ops[n].Put? && ws[n] > 0 then ops[n].bytes else []
  {
  }

  lemma Appended(off: seq<Byte>, before: seq<Byte>, after: seq<Byte>, bytes: seq<Byte>, w: nat, was: seq<Byte>,
                 acc: seq<Byte>)
    requires off + before == was + acc
    requires (after == before + bytes && w == |after|) || (after == before && w == 0)
    ensures off + after == was + (acc + if w > 0 then bytes else [])
  {
    if after == before + bytes && w == |after| {
      Regroup(off, before, bytes);
      Regroup(was, acc, bytes);
      if w == 0 { assert bytes == []; }
    }
  }

  lemma Parted(off: seq<Byte>, out: seq<Byte>, before: seq<Byte>, after: seq<Byte>, n: nat)
    requires 0 <= Min(n, |before|) <= |before|
    requires out == before[..Min(n, |before|)] && after == before[Min(n, |before|)..]
    ensures off + out + after == off + before
  {
    Regroup(off, out, after);
    assert out + after == before;
  }

  /** A looped read of n bytes of d from position head with loops left: the bytes,
      and the position and loops afterwards. */
  function Looped(d: seq<Byte>, head: nat, loops: int, n: nat): (r: (seq<Byte>, nat, int))
    requires head <= |d|
    ensures r.1 <= |d|
  {
    var k := Min(n, |d| - head);
    if k > 0 then (d[head..head + k], head + k, loops)
    else
      var left := if loops > 0 then loops - 1 else loops;
      if left == 0 then ([], head, 0) else (d[..Min(n, |d|)], Min(n, |d|), left)
  }

  lemma LoopedIs(d: seq<Byte>, head: nat, loops: int, n: nat)
    requires head <= |d|
    ensures 0 <= Min(n, |d|) <= |d|
    ensures
      var k := Min(n, |d[head..]|);
      && 0 <= k <= |d| - head
      && (k > 0 ==> Looped(d, head, loops, n) == (d[head..][..k], head + k, loops))
      && (k == 0 ==>
           var left := if loops > 0 then loops - 1 else loops;
           Looped(d, head, loops, n) == if left == 0 then ([], head, 0) else (d[..Min(n, |d|)], Min(n, |d|), left))
  {
    var k := Min(n, |d[head..]|);
    assert d[head..][..k] == d[head..head + k];
  }

  function LoopedRun(d: seq<Byte>, head: nat, loops: int, sizes: seq<nat>): (r: (seq<Byte>, nat, int))
    requires head <= |d|
    ensures r.1 <= |d|
    decreases |sizes|
  {
    if sizes == [] then ([], head, loops)
    else
      var (out, head', loops') := Looped(d, head, loops, sizes[0]);
      var (rest, head'', loops'') := LoopedRun(d, head', loops', sizes[1..]);
      (out + rest, head'', loops'')
  }

  function Repeat(d: seq<Byte>, k: nat): seq<Byte> { if k == 0 then [] else d + Repeat(d, k - 1) }

  /** What is still to come: the rest of this copy, and those to follow. */
  ghost function Coming(d: seq<Byte>, head: nat, loops: nat): seq<Byte>
    requires head <= |d|
  {
    d[head..] + Repeat(d, if loops == 0 then 0 else loops - 1)
  }

  /** With loops >= 0, a positive read takes its bytes off what is to come, and
      comes back empty only when nothing is. */
  lemma LoopedTakes(d: seq<Byte>, head: nat, loops: nat, n: nat)
    requires head <= |d| && n > 0
    ensures
      var (out, head', loops') := Looped(d, head, loops, n);
      && head' <= |d| && loops' >= 0 && out + Coming(d, head', loops') == Coming(d, head, loops)
      && (out == [] ==> Coming(d, head, loops) == [])
  {
    if head < |d| {
      var k := Min(n, |d| - head);
      assert d[head..] == d[head..head + k] + d[head + k..];
    } else if loops > 1 {
      var k := Min(n, |d|);
      assert d == d[..k] + d[k..];
      assert Repeat(d, loops - 1) == d + Repeat(d, loops - 2);
      if d == [] { NothingRepeated(loops - 1); }
    }
  }

  lemma {:induction false} NothingRepeated(k: nat)
    ensures Repeat([], k) == []
  {
    if k > 0 { NothingRepeated(k - 1); }
  }

  /** Any run of positive looped reads yields a prefix of what was to come; once a
      read comes back empty, all of it has been read and every later read is empty. */
  lemma {:induction false} LoopedRunTakes(d: seq<Byte>, head: nat, loops: nat, sizes: seq<nat>)
    requires head <= |d| && forall i :: 0 <= i < |sizes| ==> sizes[i] > 0
    ensures
      var (all, head', loops') := LoopedRun(d, head, loops, sizes);
      head' <= |d| && loops' >= 0 && all + Coming(d, head', loops') == Coming(d, head, loops)
    decreases |sizes|
  {
    if sizes != [] {
      LoopedTakes(d, head, loops, sizes[0]);
      var (out, head', loops') := Looped(d, head, loops, sizes[0]);
      LoopedRunTakes(d, head', loops', sizes[1..]);
    }
  }

  /** Enough positive reads take all that was to come. */
  lemma {:induction false} LoopedRunReaches(d: seq<Byte>, head: nat, loops: nat, sizes: seq<nat>)
    requires head <= |d| && forall i :: 0 <= i < |sizes| ==> sizes[i] > 0
    requires |sizes| >= |Coming(d, head, loops)|
    ensures LoopedRun(d, head, loops, sizes).0 == Coming(d, head, loops)
    decreases |sizes|
  {
    LoopedRunTakes(d, head, loops, sizes);
    if sizes != [] {
      hide Coming, Looped;
      LoopedTakes(d, head, loops, sizes[0]);
      var (out, head', loops') := Looped(d, head, loops, sizes[0]);
      LoopedRunReaches(d, head', loops', sizes[1..]);
    }
  }

  lemma {:induction false} RepeatLength(d: seq<Byte>, k: nat)
    ensures |Repeat(d, k)| == k * |d|
  {
    if k > 0 {
      RepeatLength(d, k - 1);
      assert k * |d| == (k - 1) * |d| + |d|;
    }
  }

  /** A fresh partition with loops = k >= 1 plays its data exactly k times: at
      every point a prefix of the k copies, all of them after as many reads as there
      are bytes at the latest, and from then on, and only then, nothing. */
  lemma PlaysExactly(d: seq<Byte>, k: nat, sizes: seq<nat>, n: nat)
    requires k >= 1 && n > 0 && forall i :: 0 <= i < |sizes| ==> sizes[i] > 0
    ensures
      var (all, head, loops) := LoopedRun(d, 0, k, sizes);
      && all <= Repeat(d, k)
      && (|sizes| >= k * |d| ==> all == Repeat(d, k))
      && (Looped(d, head, loops, n).0 == [] <==> all == Repeat(d, k))
  {
    LoopedRunTakes(d, 0, k, sizes);
    var (all, head, loops) := LoopedRun(d, 0, k, sizes);
    assert Coming(d, 0, k) == Repeat(d, k);
    LoopedTakes(d, head, loops, n);
    assert all <= all + Coming(d, head, loops);
    RepeatLength(d, k);
    if |sizes| >= k * |d| { LoopedRunReaches(d, 0, k, sizes); }
  }

  /** Loop over data: a partition, its number of loops, and reads of the given sizes. */
  method PlayLoops(data: array<Byte>, k: nat, sizes: seq<nat>) returns (all: seq<Byte>)
    requires k >= 1 && forall i :: 0 <= i < |sizes| ==> sizes[i] > 0
    ensures all <= Repeat(data[..], k) && (|sizes| >= k * data.Length ==> all == Repeat(data[..], k))
  {
    var b := new ByteBuffer.CreatePartition(data);
    b.SetLoops(k);
    all := b.ReadLoops(sizes);
    assert data[..data.Length] == data[..];
    PlaysExactly(data[..], k, sizes, 1);
  }

  /** With loops negative a positive read of non-empty data never comes back empty. */
  lemma ForeverTakes(d: seq<Byte>, head: nat, loops: int, n: nat, m: nat)
    requires head <= |d| && loops < 0 && n > 0 && m > 0
    ensures
      var (out, head', loops') := Looped(d, head, loops, n);
      && loops' == loops && (d != [] ==> out != [])
      && out + (d[head'..] + Repeat(d, if head < |d| then m else m - 1)) == d[head..] + Repeat(d, m)
  {
    if head < |d| {
      var k := Min(n, |d| - head);
      assert d[head..] == d[head..head + k] + d[head + k..];
    } else {
      var k := Min(n, |d|);
      assert d == d[..k] + d[k..];
    }
  }

  /** With loops negative any run of positive reads yields a prefix of the rest of
      the data followed by as many copies as there are reads, and so of any more. */
  lemma {:induction false} PlaysForever(d: seq<Byte>, head: nat, loops: int, sizes: seq<nat>, m: nat)
    requires head <= |d| && loops < 0 && |sizes| <= m && forall i :: 0 <= i < |sizes| ==> sizes[i] > 0
    ensures LoopedRun(d, head, loops, sizes).0 <= d[head..] + Repeat(d, m)
    decreases |sizes|
  {
    if sizes != [] {
      ForeverTakes(d, head, loops, sizes[0], m);
      var (out, head', loops') := Looped(d, head, loops, sizes[0]);
      var m' := if head < |d| then m else m - 1;
      PlaysForever(d, head', loops', sizes[1..], m');
      PrefixAfter(out, LoopedRun(d, head', loops', sizes[1..]).0, d[head'..] + Repeat(d, m'));
    }
  }

  lemma PrefixAfter(out: seq<Byte>, rest: seq<Byte>, coming: seq<Byte>)
    requires rest <= coming
    ensures out + rest <= out + coming
  {
  }
}
