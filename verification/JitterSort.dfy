/** The in-place bottom-up merge sort over the packet nodes. */
module JitterSort {
  import opened Basics
  import opened JitterNodes
  import opened StableMerge

  ghost predicate Disjoint(a: seq<Node>, b: seq<Node>) {
    forall x :: x in a ==> x !in b
  }

  ghost predicate Keyed(all: set<Node>, key: Node -> int)
    reads all`visible, all`packet
  {
    forall n :: n in all ==> key(n) == SortKey(n)
  }

  /** The merged list so far, out, ends at tail; what is left of the two runs
      and of the rest of the list is untouched. */
  ghost predicate Merging(all: set<Node>, list: Node?, tail: Node?, out: seq<Node>, left: seq<Node>, right: seq<Node>)
    reads all`next, all`prev
  {
    && (forall x :: x in out ==> x in all) && (forall x :: x in left ==> x in all)
    && (forall x :: x in right ==> x in all)
    && Distinct(out) && Distinct(left) && Distinct(right)
    && Disjoint(out, left) && Disjoint(out, right) && Disjoint(left, right)
    && NextLinks(out) && PrevLinks(out)
    && list == First(out)
    && tail == (if out == [] then null else out[|out| - 1])
    && NextLinks(left)
    && Chain(First(right), right)
  }

  /** Append e to the merged list. */
  method Append(list: Node?, tail: Node?, e: Node, ghost all: set<Node>, ghost out: seq<Node>,
                ghost left: seq<Node>, ghost right: seq<Node>)
    returns (list': Node?, tail': Node?)
    requires Merging(all, list, tail, out, left, right)
    requires e in all && e !in out && e !in left && e !in right
    modifies all`next, all`prev
    ensures Merging(all, list', tail', out + [e], left, right)
  {
    if tail != null {
      assert tail in out;
      tail.next := e;
      list' := list;
    } else {
      list' := e;
    }
    e.prev := tail;
    tail' := e;
  }

  lemma DropLeft(all: set<Node>, list: Node?, tail: Node?, out: seq<Node>, left: seq<Node>, right: seq<Node>)
    requires Merging(all, list, tail, out, left, right) && left != []
    ensures Merging(all, list, tail, out, left[1..], right)
    ensures left[0] in all && left[0] !in out && left[0] !in left[1..] && left[0] !in right
    ensures |left| > 1 ==> left[0].next == left[1]
  {
  }

  lemma DropRight(all: set<Node>, list: Node?, tail: Node?, out: seq<Node>, left: seq<Node>, right: seq<Node>)
    requires Merging(all, list, tail, out, left, right) && right != []
    ensures Merging(all, list, tail, out, left, right[1..])
    ensures right[0] in all && right[0] !in out && right[0] !in left && right[0] !in right[1..]
    ensures right[0].next == First(right[1..])
  {
  }

  /** One turn of the inner loop: decide whether the next element comes from
      p or from q, take it off its run and append it. */
  method MergeStep(list0: Node?, tail0: Node?, p0: Node?, psize0: nat, q0: Node?, qsize0: nat, ghost all: set<Node>,
                   ghost out: seq<Node>, ghost left: seq<Node>, ghost right: seq<Node>, ghost key: Node -> int)
    returns (list: Node?, tail: Node?, p: Node?, psize: nat, q: Node?, qsize: nat,
             ghost out': seq<Node>, ghost left': seq<Node>, ghost right': seq<Node>)
    requires Keyed(all, key)
    requires Merging(all, list0, tail0, out, left, right)
    requires psize0 == |left| && (psize0 > 0 ==> p0 == left[0]) && q0 == First(right)
    requires psize0 > 0 || (qsize0 > 0 && q0 != null)
    modifies all`next, all`prev
    ensures Merging(all, list, tail, out', left', right')
    ensures psize == |left'| && (psize > 0 ==> p == left'[0]) && q == First(right')
    ensures psize + |right'| < psize0 + |right|
    ensures out' + Merge(left', Take(right', qsize), key) == out + Merge(left, Take(right, qsize0), key)
    ensures Drop(right', qsize) == Drop(right, qsize0)
  {
    p, psize, q, qsize := p0, psize0, q0, qsize0;
    left', right' := left, right;
    var e: Node;
    if psize == 0 {
      e, q, qsize, right' := TakeRight(list0, tail0, q, qsize, all, out, left, right, key);
    } else if qsize == 0 || q == null {
      e, p, psize, left' := TakeLeft(list0, tail0, p, psize, qsize, all, out, left, right, key);
    } else if NodeCmp(p, q) <= 0 {
      NodeCmpIsPreorder(p, q);
      e, p, psize, left' := TakeLeft(list0, tail0, p, psize, qsize, all, out, left, right, key);
    } else {
      NodeCmpIsPreorder(p, q);
      e, q, qsize, right' := TakeRight(list0, tail0, q, qsize, all, out, left, right, key);
    }
    list, tail := Append(list0, tail0, e, all, out, left', right');
    out' := out + [e];
  }

  method TakeLeft(list: Node?, tail: Node?, p0: Node, psize0: nat, qsize: nat, ghost all: set<Node>,
                  ghost out: seq<Node>, ghost left: seq<Node>, ghost right: seq<Node>, ghost key: Node -> int)
    returns (e: Node, p: Node?, psize: nat, ghost left': seq<Node>)
    requires Merging(all, list, tail, out, left, right)
    requires psize0 == |left| > 0 && p0 == left[0]
    requires qsize == 0 || right == [] || key(left[0]) <= key(right[0])
    ensures e == left[0] && left' == left[1..] && psize == |left'| && (psize > 0 ==> p == left'[0])
    ensures Merging(all, list, tail, out, left', right)
    ensures e in all && e !in out && e !in left' && e !in right
    ensures out + [e] + Merge(left', Take(right, qsize), key) == out + Merge(left, Take(right, qsize), key)
  {
    DropLeft(all, list, tail, out, left, right);
    MergeTakesLeft(out, left, right, qsize, key);
    e, p, psize, left' := p0, p0.next, psize0 - 1, left[1..];
  }

  method TakeRight(list: Node?, tail: Node?, q0: Node, qsize0: nat, ghost all: set<Node>,
                   ghost out: seq<Node>, ghost left: seq<Node>, ghost right: seq<Node>, ghost key: Node -> int)
    returns (e: Node, q: Node?, qsize: nat, ghost right': seq<Node>)
    requires Merging(all, list, tail, out, left, right)
    requires qsize0 > 0 && right != [] && q0 == right[0]
    requires left == [] || key(left[0]) > key(right[0])
    ensures e == right[0] && right' == right[1..] && qsize == qsize0 - 1 && q == First(right')
    ensures Merging(all, list, tail, out, left, right')
    ensures e in all && e !in out && e !in left && e !in right'
    ensures out + [e] + Merge(left, Take(right', qsize), key) == out + Merge(left, Take(right, qsize0), key)
    ensures Drop(right', qsize) == Drop(right, qsize0)
  {
    DropRight(all, list, tail, out, left, right);
    MergeTakesRight(out, left, right, qsize0, key);
    e, q, qsize, right' := q0, q0.next, qsize0 - 1, right[1..];
  }

  /** The inner loop of the sort: merge the psize-element run at p with the run
      of at most insize elements at q, appending to the list ending at tail. */
  method MergeRuns(list0: Node?, tail0: Node?, p0: Node?, q0: Node?, insize: nat, psize0: nat, ghost all: set<Node>,
                   ghost out: seq<Node>, ghost left: seq<Node>, ghost right: seq<Node>, ghost key: Node -> int)
    returns (list: Node?, tail: Node?, q: Node?, ghost out': seq<Node>, ghost right': seq<Node>)
    requires Keyed(all, key)
    requires Merging(all, list0, tail0, out, left, right)
    requires psize0 == |left| && p0 == First(left) && q0 == First(right)
    modifies all`next, all`prev
    ensures out' == out + Merge(left, Take(right, insize), key)
    ensures right' == Drop(right, insize) && q == First(right')
    ensures Merging(all, list, tail, out', [], right')
  {
    var p, psize, qsize := p0, psize0, insize;
    list, tail, q := list0, tail0, q0;
    out', right' := out, right;
    ghost var l := left;
    while psize > 0 || (qsize > 0 && q != null)
      invariant Merging(all, list, tail, out', l, right')
      invariant psize == |l| && (psize > 0 ==> p == l[0]) && q == First(right')
      invariant out' + Merge(l, Take(right', qsize), key) == out + Merge(left, Take(right, insize), key)
      invariant Drop(right', qsize) == Drop(right, insize)
      decreases psize + |right'|
    {
      list, tail, p, psize, q, qsize, out', l, right' :=
        MergeStep(list, tail, p, psize, q, qsize, all, out', l, right', key);
    }
    assert l == [];
    assert Take(right', qsize) == [] && Drop(right', qsize) == right';
  }

  /** Step insize places along from p to find where the second run starts. */
  method StepAlong(p: Node?, insize: nat, ghost s: seq<Node>) returns (q: Node?, psize: nat)
    requires 0 < insize && s != [] && Chain(p, s)
    ensures psize == |Take(s, insize)| && q == First(Drop(s, insize))
  {
    q, psize := p, 0;
    var i := 0;
    while i < insize
      invariant 0 <= i <= insize && psize == i < |s| + 1 && (i < |s| || i == insize)
      invariant q == First(s[i..])
    {
      psize := psize + 1;
      q := q.next;
      assert q == First(s[i + 1..]);
      if q == null { break; }
      i := i + 1;
    }
  }

  lemma MergeTakesLeft(out: seq<Node>, l: seq<Node>, r: seq<Node>, qsize: nat, key: Node -> int)
    requires l != []
    requires qsize == 0 || r == [] || key(l[0]) <= key(r[0])
    ensures out + Merge(l, Take(r, qsize), key) == out + [l[0]] + Merge(l[1..], Take(r, qsize), key)
  {
    var b := Take(r, qsize);
    assert Merge(l, b, key) == [l[0]] + Merge(l[1..], b, key);
  }

  lemma MergeTakesRight(out: seq<Node>, l: seq<Node>, r: seq<Node>, qsize: nat, key: Node -> int)
    requires qsize > 0 && r != [] && (l == [] || key(l[0]) > key(r[0]))
    ensures out + Merge(l, Take(r, qsize), key) == out + [r[0]] + Merge(l, Take(r[1..], qsize - 1), key)
    ensures Drop(r[1..], qsize - 1) == Drop(r, qsize)
  {
    var b := Take(r, qsize);
    assert b[1..] == Take(r[1..], qsize - 1);
    assert Merge(l, b, key) == [r[0]] + Merge(l, b[1..], key);
  }

  /** One turn of a pass: merge the first two runs of what remains, rest. */
  method MergePair(list0: Node?, tail0: Node?, p: Node?, insize: nat, ghost nmerges: nat, ghost s: seq<Node>,
                   ghost all: set<Node>,
                   ghost out: seq<Node>, ghost rest: seq<Node>, ghost key: Node -> int)
    returns (list: Node?, tail: Node?, q: Node?, ghost out': seq<Node>, ghost rest': seq<Node>)
    requires 0 < insize && rest != [] && p == rest[0]
    requires Keyed(all, key)
    requires Merging(all, list0, tail0, out, [], rest)
    requires PartPass(s, out, rest, insize, nmerges, key)
    modifies all`next, all`prev
    ensures Merging(all, list, tail, out', [], rest') && q == First(rest') && |rest'| < |rest|
    ensures PartPass(s, out', rest', insize, nmerges + 1, key)
  {
    var q0, psize := StepAlong(p, insize, rest);
    ghost var a, b := Take(rest, insize), Take(Drop(rest, insize), insize);
    SplitRun(all, list0, tail0, out, rest, insize);
    list, tail, q, out', rest' := MergeRuns(list0, tail0, p, q0, insize, psize, all, out, a, Drop(rest, insize), key);
    DropDrop(rest, insize);
    PartPassTurn(s, out, rest, insize, nmerges, key);
  }

  /** After nmerges merges of a pass over s: out is merged, rest is not. */
  ghost predicate PartPass(s: seq<Node>, out: seq<Node>, rest: seq<Node>, n: nat, nmerges: nat, key: Node -> int)
    requires 0 < n
  {
    && out + Pass(rest, n, key) == Pass(s, n, key)
    && (nmerges == 0 ==> rest == s)
    && (nmerges == 1 ==> rest == Drop(s, 2 * n))
    && (nmerges > 1 ==> |s| > 2 * n)
  }

  lemma PartPassTurn(s: seq<Node>, out: seq<Node>, rest: seq<Node>, n: nat, nmerges: nat, key: Node -> int)
    requires 0 < n && rest != [] && PartPass(s, out, rest, n, nmerges, key)
    ensures
      var m := Merge(Take(rest, n), Take(Drop(rest, n), n), key);
      PartPass(s, out + m, Drop(rest, 2 * n), n, nmerges + 1, key)
  {
    var m, tail := Merge(Take(rest, n), Take(Drop(rest, n), n), key), Pass(Drop(rest, 2 * n), n, key);
    assert Pass(rest, n, key) == m + tail;
    assert out + m + tail == out + (m + tail);
  }

  lemma PartPassDone(s: seq<Node>, out: seq<Node>, n: nat, nmerges: nat, key: Node -> int)
    requires 0 < n && s != [] && PartPass(s, out, [], n, nmerges, key)
    ensures out == Pass(s, n, key) && out != []
    ensures nmerges <= 1 <==> |s| <= 2 * n
  {
  }

  /** The turns of one pass, for as long as p has elements left. */
  method MergePairs(list0: Node, insize: nat, ghost s: seq<Node>, ghost all: set<Node>, ghost key: Node -> int)
    returns (list: Node?, tail: Node?, nmerges: nat, ghost r: seq<Node>)
    requires 0 < insize && s != [] && Chain(list0, s)
    requires Merging(all, null, null, [], [], s)
    requires Keyed(all, key)
    modifies all`next, all`prev
    ensures Merging(all, list, tail, r, [], [])
    ensures PartPass(s, r, [], insize, nmerges, key)
  {
    hide Merge, Pass;
    var p: Node? := list0;
    list, tail, nmerges, r := null, null, 0, [];
    ghost var rest := s;
    assert r + Pass(s, insize, key) == Pass(s, insize, key);
    while p != null
      invariant Merging(all, list, tail, r, [], rest)
      invariant p == First(rest)
      invariant PartPass(s, r, rest, insize, nmerges, key)
      decreases |rest|
    {
      list, tail, p, r, rest := MergePair(list, tail, p, insize, nmerges, s, all, r, rest, key);
      nmerges := nmerges + 1;
    }
    assert rest == [];
  }

  /** One pass over the list, merging runs of insize elements pairwise. */
  method SortPass(list0: Node, insize: nat, ghost s: seq<Node>, ghost all: set<Node>, ghost key: Node -> int)
    returns (list: Node?, nmerges: nat, ghost r: seq<Node>)
    requires 0 < insize && s != [] && Distinct(s) && Chain(list0, s)
    requires forall n :: n in s ==> n in all
    requires Keyed(all, key)
    modifies all`next, all`prev
    ensures r == Pass(s, insize, key)
    ensures DoublyLinked(list, r)
    ensures nmerges <= 1 <==> |s| <= 2 * insize
  {
    var tail;
    list, tail, nmerges, r := MergePairs(list0, insize, s, all, key);
    PartPassDone(s, r, insize, nmerges, key);
    Terminate(list, tail, all, r);
  }

  method Terminate(list: Node?, tail: Node?, ghost all: set<Node>, ghost out: seq<Node>)
    requires Merging(all, list, tail, out, [], []) && tail != null
    modifies tail`next
    ensures DoublyLinked(list, out)
  {
    tail.next := null;
    assert NextLinks(out);
  }

  /** r is s after some passes: stably rearranged into sorted runs of n. */
  ghost predicate Arranged(s: seq<Node>, r: seq<Node>, n: nat, key: Node -> int)
    requires 0 < n
  {
    && multiset(r) == multiset(s) && |r| == |s|
    && (forall v :: WithKey(r, key, v) == WithKey(s, key, v))
    && Runs(r, n, key)
  }

  lemma PassArranges(s: seq<Node>, r: seq<Node>, n: nat, key: Node -> int)
    requires 0 < n && Arranged(s, r, n, key)
    ensures Arranged(s, Pass(r, n, key), 2 * n, key)
    ensures |s| <= 2 * n ==> StablySorted(s, Pass(r, n, key), key)
  {
    PassKeeps(r, n, key);
    if |s| <= 2 * n { OneRun(Pass(r, n, key), 2 * n, key); }
  }

  method SortRound(list: Node, insize: nat, ghost s: seq<Node>, ghost r: seq<Node>, ghost all: set<Node>,
                   ghost key: Node -> int)
    returns (head: Node?, nmerges: nat, ghost r': seq<Node>)
    requires 0 < insize <= |r| && Distinct(r) && Chain(list, r)
    requires forall n :: n in s ==> n in all
    requires Keyed(all, key)
    requires Arranged(s, r, insize, key)
    modifies all`next, all`prev
    ensures DoublyLinked(head, r') && r' != []
    ensures Arranged(s, r', 2 * insize, key)
    ensures nmerges <= 1 ==> StablySorted(s, r', key)
    ensures nmerges > 1 ==> 2 * insize < |s|
  {
    SameElements(r, s);
    PassArranges(s, r, insize, key);
    head, nmerges, r' := SortPass(list, insize, r, all, key);
  }

  /** Sort the list in place. The outcome is the stable sort of s by SortKey. */
  method SortNodes(list: Node?, ghost s: seq<Node>) returns (head: Node?, ghost r: seq<Node>)
    requires Distinct(s) && Chain(list, s)
    modifies s`next, s`prev
    ensures DoublyLinked(head, r)
    ensures StablySorted(s, r, old(KeyOf(s)))
  {
    hide *;
    ghost var key := KeyOf(s);
    ghost var all := set n | n in s;
    SortStarts(list, s);
    if list == null {
      return null, [];
    }
    var insize := 1;
    head, r := list, s;
    while true
      invariant 0 < insize <= |s| == |r| && Distinct(r) && Chain(head, r) && head != null
      invariant Keyed(all, key)
      invariant Arranged(s, r, insize, key)
      decreases |s| - insize
    {
      var nmerges;
      head, nmerges, r := SortRound(head, insize, s, r, all, key);
      RoundLinks(head, s, r, 2 * insize, key);
      if nmerges <= 1 {
        return;
      }
      insize := insize * 2;
    }
  }

  lemma SortStarts(list: Node?, s: seq<Node>)
    requires Distinct(s) && Chain(list, s)
    ensures list == null <==> s == []
    ensures Keyed((set n | n in s), KeyOf(s)) && Arranged(s, s, 1, KeyOf(s))
    ensures list == null ==> DoublyLinked(list, s) && StablySorted(s, s, KeyOf(s))
  {
    SingletonRuns(s, KeyOf(s));
  }

  lemma RoundLinks(head: Node?, s: seq<Node>, r: seq<Node>, n: nat, key: Node -> int)
    requires DoublyLinked(head, r) && 0 < n && Arranged(s, r, n, key)
    ensures |r| == |s| && Distinct(r) && Chain(head, r) && (s != [] ==> head != null)
  {
  }

  lemma SameElements(r: seq<Node>, s: seq<Node>)
    requires multiset(r) == multiset(s)
    ensures forall n :: n in r <==> n in s
  {
    assert forall n :: n in r <==> n in multiset(r);
  }

  /** The sort keys the nodes of s have now, as a heap-independent function. */
  ghost function KeyOf(s: seq<Node>): Node -> int
    reads s`visible, s`packet
  {
    var keys := map n | n in s :: SortKey(n);
    n => if n in keys then keys[n] else 0
  }

  lemma SplitRun(all: set<Node>, list: Node?, tail: Node?, out: seq<Node>, rest: seq<Node>, n: nat)
    requires Merging(all, list, tail, out, [], rest)
    ensures Merging(all, list, tail, out, Take(rest, n), Drop(rest, n))
  {
  }
}
