/** The DTLS output filter: it remembers the size of every datagram written into
    a byte FIFO, so that the datagrams can be taken out again one by one. */
module DtlsFilters {
  import opened Basics

  const MAX_DTLS_MTU := 4096

  /** size is what the FIFO answered to the write: not positive if it took nothing. */
  class Cell {
    var size: int
    var next: Cell?

    constructor ()
      ensures next == null
    {
      size, next := 0, null;
    }
  }

  function First(s: seq<Cell>): Cell? { if s == [] then null else s[0] }

  /** The chain from h to null runs through exactly the cells of s. */
  ghost predicate Chain(h: Cell?, s: seq<Cell>)
    reads s`next
  {
    && h == First(s)
    && (forall i :: 0 <= i < |s| - 1 ==> s[i].next == s[i + 1])
    && (s != [] ==> s[|s| - 1].next == null)
  }

  ghost predicate Distinct(s: seq<Cell>) { forall i, j :: 0 <= i < j < |s| ==> s[i] != s[j] }

  lemma ChainTail(h: Cell?, s: seq<Cell>)
    requires Chain(h, s) && s != [] && Distinct(s)
    ensures h == s[0] && Chain(s[0].next, s[1..]) && Distinct(s[1..]) && s[0] !in s[1..]
  {
  }

  lemma ChainCons(c: Cell, s: seq<Cell>)
    requires Chain(c.next, s) && Distinct(s) && c !in s
    ensures Chain(c, [c] + s) && Distinct([c] + s)
  {
  }

  lemma NoCells(h: Cell?, s: seq<Cell>)
    requires Chain(h, s)
    ensures h == null <==> s == []
  {
  }

  ghost function Flatten(q: seq<seq<Byte>>): seq<Byte> {
    if q == [] then [] else q[0] + Flatten(q[1..])
  }

  lemma {:induction false} FlattenAppend(q: seq<seq<Byte>>, d: seq<Byte>)
    ensures Flatten(q + [d]) == Flatten(q) + d
  {
    if q == [] {
      assert Flatten([d]) == d + Flatten([]);
    } else {
      FlattenAppend(q[1..], d);
      assert (q + [d])[1..] == q[1..] + [d];
    }
  }

  lemma FlattenHead(q: seq<seq<Byte>>)
    requires q != []
    ensures |q[0]| <= |Flatten(q)| && Flatten(q)[..|q[0]|] == q[0] && Flatten(q)[|q[0]|..] == Flatten(q[1..])
  {
  }

  /** The part of a datagram that the FIFO took. */
  function Taken(d: seq<Byte>, ret: int): seq<Byte>
    requires ret <= |d|
  {
    if ret > 0 then d[..ret] else []
  }

  lemma TakenSize(d: seq<Byte>, ret: int)
    requires ret <= |d|
    ensures |Taken(d, ret)| == Max(0, ret)
  {
  }

  /** The datagrams before the first of which nothing was taken, and those after it. */
  ghost function Whole(q: seq<seq<Byte>>): seq<seq<Byte>> {
    if q == [] || q[0] == [] then [] else [q[0]] + Whole(q[1..])
  }

  ghost function Beyond(q: seq<seq<Byte>>): seq<seq<Byte>> {
    if q == [] then [] else if q[0] == [] then q[1..] else Beyond(q[1..])
  }

  /** If something was taken of all of them, that is all. */
  lemma {:induction false} AllWhole(q: seq<seq<Byte>>)
    ensures (forall i :: 0 <= i < |q| ==> q[i] != []) <==> Whole(q) == q
    ensures Whole(q) == q ==> Beyond(q) == []
    ensures |Whole(q)| <= |q|
  {
    if q != [] && q[0] != [] {
      AllWhole(q[1..]);
      assert q == [q[0]] + q[1..];
      assert forall i :: 1 <= i < |q| ==> q[i] == q[1..][i - 1];
    }
  }

  class Filter {
    var packets: Cell?
    var tail: Cell?
    var unused: Cell?
    /** The memory BIO behind the filter. */
    var bio: seq<Byte>

    /** The cells in use and the ones kept for reuse. */
    ghost var pending: seq<Cell>
    ghost var spare: seq<Cell>
    /** What the FIFO took of the datagrams written and not taken out yet. */
    ghost var queue: seq<seq<Byte>>

    /** Both lists are well formed and share no cell; tail is the last cell in use. */
    ghost predicate Lists()
      reads this`packets, this`tail, this`unused, this`pending, this`spare, pending`next, spare`next
    {
      && Chain(packets, pending) && Distinct(pending)
      && Chain(unused, spare) && Distinct(spare)
      && (forall c :: c in pending ==> c !in spare)
      && tail == (if pending == [] then null else pending[|pending| - 1])
    }

    /** The FIFO holds the queued datagrams, and the cells their sizes. */
    ghost predicate Sized()
      reads this`pending, this`queue, this`bio, pending`size
    {
      && |queue| == |pending|
      && (forall i :: 0 <= i < |queue| ==> Max(0, pending[i].size) == |queue[i]|)
      && bio == Flatten(queue)
    }

    ghost predicate Valid()
      reads this, pending, spare
    {
      Lists() && Sized()
    }

    ghost function Cells(): set<Cell>
      reads this`pending, this`spare
    {
      (set c | c in pending) + (set c | c in spare)
    }

    /** The cells in use hold the sizes of q, in order. */
    ghost predicate Sizes(q: seq<seq<Byte>>)
      reads this`pending, pending`size
    {
      |pending| == |q| && forall i :: 0 <= i < |q| ==> Max(0, pending[i].size) == |q[i]|
    }

    constructor ()
      ensures Valid() && queue == [] && Cells() == {}
    {
      packets, tail, unused, bio := null, null, null, [];
      pending, spare, queue := [], [], [];
    }

    /** Pass a datagram on to the FIFO, which answers ret, and note how much it took. */
    method Write(d: seq<Byte>, ret: int)
      requires Valid() && ret <= |d|
      modifies this, Cells()
      ensures Valid() && queue == old(queue) + [Taken(d, ret)]
      ensures spare == [] && forall c :: c in Cells() ==> c in old(Cells()) || fresh(c)
    {
      hide *;
      Unpack();
      CellsIs();
      FlattenAppend(queue, Taken(d, ret));
      TakenSize(d, ret);
      bio := bio + Taken(d, ret);
      var node := CellToUse();
      node.size := ret;
      ghost var cells := pending;
      LinkLast(node);
      SizesMore(queue, cells, node, Taken(d, ret));
      queue := queue + [Taken(d, ret)];
      Repack();
      CellsIs();
    }

    lemma CellsIs()
      ensures Cells() == (set c | c in pending) + (set c | c in spare)
      ensures forall i :: 0 <= i < |pending| ==> pending[i] in Cells()
      ensures forall i :: 0 <= i < |spare| ==> spare[i] in Cells()
    {
    }

    lemma SizesMore(q: seq<seq<Byte>>, cells: seq<Cell>, node: Cell, d: seq<Byte>)
      requires pending == cells + [node] && |cells| == |q| && Max(0, node.size) == |d|
      requires forall i :: 0 <= i < |q| ==> Max(0, cells[i].size) == |q[i]|
      ensures Sizes(q + [d])
    {
    }

    /** A cell to use: the first spare one, and then the others are lost, or a new one. */
    method CellToUse() returns (node: Cell)
      requires Lists()
      modifies this`unused, this`spare, spare`next
      ensures Lists() && spare == [] && node.next == null && node !in pending
      ensures node in old(spare) || fresh(node)
    {
      NoCells(unused, spare);
      if unused != null {
        node := unused;
        assert node in spare;
        node.next := null;
        unused := unused.next;
      } else {
        node := new Cell();
      }
      spare := [];
    }

    method LinkLast(node: Cell)
      requires Lists() && node.next == null && node !in pending && node !in spare
      modifies this`packets, this`tail, this`pending, pending`next
      ensures Lists() && pending == old(pending) + [node]
    {
      if tail != null {
        assert tail in pending;
        tail.next := node;
      } else {
        packets := node;
      }
      tail := node;
      pending := pending + [node];
    }

    /** The size of the next datagram, which is then forgotten; 0 if there is none. */
    method TakePending() returns (size: int)
      requires Lists()
      modifies this`packets, this`tail, this`unused, this`pending, this`spare, pending`next
      ensures Lists()
      ensures old(pending) == [] ==> size == 0 && pending == [] && spare == old(spare)
      ensures old(pending) != [] ==>
        size == old(pending)[0].size && pending == old(pending)[1..] && spare == [old(pending)[0]] + old(spare)
      ensures Cells() == old(Cells())
    {
      hide Chain, Distinct;
      size := 0;
      NoCells(packets, pending);
      var top := packets;
      if top != null {
        ghost var rest := pending[1..];
        ChainTail(packets, pending);
        assert top in pending;
        packets := packets.next;
        NoCells(packets, rest);
        if top == tail || packets == null {
          tail := null;
        }
        size := top.size;
        top.next := unused;
        unused := top;
        ChainCons(top, spare);
        spare := [top] + spare;
        pending := rest;
      }
    }

    method TakeSize(ghost q: seq<seq<Byte>>) returns (size: int)
      requires Lists() && Sizes(q)
      modifies this`packets, this`tail, this`unused, this`pending, this`spare, Cells()`next
      ensures Lists() && Sizes(if q == [] then [] else q[1..])
      ensures if q == [] then size == 0 else if size > 0 then size == |q[0]| else q[0] == []
      ensures (forall i :: 0 <= i < |pending| ==> pending[i] in old(pending)) && Cells() == old(Cells())
    {
      hide Lists, Cells;
      CellsIs();
      size := TakePending();
    }

    /** The drain loop of do_dtls: each datagram is read back as it was taken and sent,
        up to the first of which nothing was taken. That one is passed over, and stops
        the loop. */
    method Drain() returns (sent: seq<seq<Byte>>)
      requires Valid() && forall i :: 0 <= i < |queue| ==> |queue[i]| <= MAX_DTLS_MTU
      modifies this, Cells()`next
      ensures Valid() && sent == Whole(old(queue)) && queue == Beyond(old(queue)) && Cells() == old(Cells())
      ensures (forall i :: 0 <= i < |old(queue)| ==> old(queue)[i] != []) ==> sent == old(queue) && queue == []
    {
      hide *;
      Unpack();
      AllWhole(queue);
      sent := [];
      var size := TakeSize(queue);
      while size > 0
        invariant Lists() && Cells() == old(Cells())
        invariant sent + Whole(queue) == Whole(old(queue)) && Beyond(queue) == Beyond(old(queue))
        invariant bio == Flatten(queue)
        invariant Sizes(if queue == [] then [] else queue[1..])
        invariant if queue == [] then size == 0 else if size > 0 then size == |queue[0]| else queue[0] == []
        invariant forall i :: 0 <= i < |queue| ==> |queue[i]| <= MAX_DTLS_MTU
        decreases |queue|
      {
        FlattenHead(queue);
        WholeHead(queue);
        var buf := bio[..size];
        bio := bio[size..];
        sent := sent + [buf];
        queue := queue[1..];
        size := TakeSize(queue);
      }
      WholeStops(queue);
      if queue != [] {
        queue := queue[1..];
      }
      Repack();
    }

    lemma Unpack()
      requires Valid()
      ensures Lists() && Sizes(queue) && bio == Flatten(queue)
      ensures |pending| == |queue| && forall i :: 0 <= i < |queue| ==> Max(0, pending[i].size) == |queue[i]|
    {
      hide Lists, Flatten;
    }

    lemma Repack()
      requires Lists() && bio == Flatten(queue) && Sizes(queue)
      ensures Valid()
    {
      hide Lists, Flatten;
    }
  }

  lemma WholeHead(q: seq<seq<Byte>>)
    requires q != [] && q[0] != []
    ensures Whole(q) == [q[0]] + Whole(q[1..]) && Beyond(q) == Beyond(q[1..])
  {
  }

  lemma WholeStops(q: seq<seq<Byte>>)
    requires q == [] || q[0] == []
    ensures Whole(q) == [] && Beyond(q) == (if q == [] then [] else q[1..])
    ensures Flatten(q) == Flatten(Beyond(q))
  {
  }

  // ---- any run of writes and drains ----

  /** A datagram is written, of which the FIFO answers to have taken ret, or the queue is
      drained. */
  datatype Act = Put(d: seq<Byte>, ret: int) | Fetch

  ghost predicate ActOk(a: Act) { a.Put? ==> a.ret <= |a.d| && |a.d| <= MAX_DTLS_MTU }

  /** What the FIFO took of each datagram written. */
  ghost function TakenOf(acts: seq<Act>): seq<seq<Byte>>
    requires forall i :: 0 <= i < |acts| ==> ActOk(acts[i])
  {
    if acts == [] then []
    else
      var a := acts[|acts| - 1];
      assert ActOk(a);
      TakenOf(acts[..|acts| - 1]) + if a.Put? then [Taken(a.d, a.ret)] else []
  }

  /** The datagrams of which something was taken. */
  ghost function Some(q: seq<seq<Byte>>): seq<seq<Byte>> {
    if q == [] then [] else (if q[0] == [] then [] else [q[0]]) + Some(q[1..])
  }

  lemma {:induction false} SomeConcat(a: seq<seq<Byte>>, b: seq<seq<Byte>>)
    ensures Some(a + b) == Some(a) + Some(b)
  {
    hide Some;
    if a == [] {
      SomeNone();
      assert a + b == b;
    } else {
      SomeConcat(a[1..], b);
      assert (a + b)[1..] == a[1..] + b;
      SomeFirst(a);
      SomeFirst(a + b);
      Regroup(if a[0] == [] then [] else [a[0]], Some(a[1..]), Some(b));
    }
  }

  lemma SomeNone()
    ensures Some([]) == []
  {
  }

  lemma SomeFirst(q: seq<seq<Byte>>)
    requires q != []
    ensures Some(q) == (if q[0] == [] then [] else [q[0]]) + Some(q[1..])
  {
  }

  /** A drain sends the first of them and leaves the others. */
  lemma {:induction false} SomeDrained(q: seq<seq<Byte>>)
    ensures Whole(q) + Some(Beyond(q)) == Some(q)
    ensures forall d :: d in Beyond(q) ==> d in q
  {
    if q != [] && q[0] != [] { SomeDrained(q[1..]); }
  }

  lemma NothingTaken(acts: seq<Act>)
    ensures acts[..0] == [] && TakenOf([]) == [] && Some([]) == []
    ensures forall q: seq<seq<Byte>> :: [] + q == q == q + []
  {
  }

  lemma NextTaken(acts: seq<Act>, i: nat)
    requires i < |acts| && forall i :: 0 <= i < |acts| ==> ActOk(acts[i])
    ensures ActOk(acts[i]) && (acts[i].Put? ==> acts[i].ret <= |acts[i].d| <= MAX_DTLS_MTU)
    ensures TakenOf(acts[..i + 1]) ==
            TakenOf(acts[..i]) + if acts[i].Put? then [Taken(acts[i].d, acts[i].ret)] else []
    ensures acts[i].Put? ==> |Taken(acts[i].d, acts[i].ret)| <= |acts[i].d|
  {
    assert acts[..i + 1][..i] == acts[..i];
  }

  lemma InCells(f: Filter)
    ensures forall i :: 0 <= i < |f.pending| ==> f.pending[i] in f.Cells()
    ensures forall i :: 0 <= i < |f.spare| ==> f.spare[i] in f.Cells()
  {
  }

  lemma Grown(sent: seq<seq<Byte>>, q: seq<seq<Byte>>, d: seq<Byte>, before: seq<seq<Byte>>, taken: seq<seq<Byte>>)
    requires sent + Some(q) == before + Some(taken)
    ensures sent + Some(q + [d]) == before + Some(taken + [d])
  {
    SomeConcat(q, [d]);
    SomeConcat(taken, [d]);
    hide Some;
    Regroup(sent, Some(q), Some([d]));
    Regroup(before, Some(taken), Some([d]));
  }

  lemma Drained(sent: seq<seq<Byte>>, more: seq<seq<Byte>>, q: seq<seq<Byte>>, q': seq<seq<Byte>>)
    requires more == Whole(q) && q' == Beyond(q)
    ensures sent + more + Some(q') == sent + Some(q)
    ensures forall d :: d in q' ==> d in q
  {
    SomeDrained(q);
    Regroup(sent, more, Some(q'));
  }

  /** Over any run every datagram of which something was taken has been sent once, in
      order, or is still queued. */
  method Run(f: Filter, acts: seq<Act>) returns (sent: seq<seq<Byte>>)
    requires f.Valid() && forall i :: 0 <= i < |acts| ==> ActOk(acts[i])
    requires forall d :: d in f.queue ==> |d| <= MAX_DTLS_MTU
    modifies f, f.Cells()
    ensures f.Valid() && forall c :: c in f.Cells() ==> c in old(f.Cells()) || fresh(c)
    ensures sent + Some(f.queue) == Some(old(f.queue)) + Some(TakenOf(acts))
  {
    hide *;
    sent := [];
    NothingTaken(acts);
    var i := 0;
    while i < |acts|
      invariant 0 <= i <= |acts| && f.Valid()
      invariant forall c :: c in f.Cells() ==> c in old(f.Cells()) || fresh(c)
      invariant forall d :: d in f.queue ==> |d| <= MAX_DTLS_MTU
      invariant sent + Some(f.queue) == Some(old(f.queue)) + Some(TakenOf(acts[..i]))
    {
      NextTaken(acts, i);
      InCells(f);
      ghost var q := f.queue;
      match acts[i] {
        case Put(d, ret) =>
          f.Write(d, ret);
          Grown(sent, q, Taken(d, ret), Some(old(f.queue)), TakenOf(acts[..i]));
        case Fetch =>
          var more := f.Drain();
          Drained(sent, more, q, f.queue);
          sent := sent + more;
      }
      i := i + 1;
    }
    assert acts[..i] == acts;
  }
}
