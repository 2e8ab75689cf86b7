/** The in-memory copy of a log: a singly linked queue of byte slices. */
module LogQueue {
  import opened Bytes

  class Node {
    const item: array<Byte>
    var next: Node?

    constructor (item: array<Byte>)
      ensures this.item == item && next == null
    {
      this.item := item;
      next := null;
    }
  }

  function TotalLength(chunks: seq<Text>): (n: nat)
  {
    if |chunks| == 0 then 0 else TotalLength(chunks[..|chunks| - 1]) + |chunks[|chunks| - 1]|
  }

  lemma {:induction false} FlattenLength(chunks: seq<Text>)
    ensures |Flatten(chunks)| == TotalLength(chunks)
  {
    if |chunks| > 0 { FlattenLength(chunks[..|chunks| - 1]); }
  }

  lemma TotalLengthMore(chunks: seq<Text>, chunk: Text)
    ensures TotalLength(chunks + [chunk]) == TotalLength(chunks) + |chunk|
  {
    assert (chunks + [chunk])[..|chunks|] == chunks;
  }

  lemma {:induction false} TotalLengthTail(chunks: seq<Text>)
    requires chunks != []
    ensures TotalLength(chunks) == |chunks[0]| + TotalLength(chunks[1..])
  {
    var before := chunks[..|chunks| - 1];
    if |chunks| > 1 {
      TotalLengthTail(before);
      assert before[1..] == chunks[1..][..|chunks| - 2];
    }
  }

  /** The part of a flattened list that its first k pieces fill. */
  lemma FlattenPrefix(chunks: seq<Text>, k: nat)
    requires k < |chunks|
    ensures Flatten(chunks[..k + 1]) == Flatten(chunks[..k]) + chunks[k]
    ensures TotalLength(chunks[..k + 1]) == TotalLength(chunks[..k]) + |chunks[k]|
    ensures TotalLength(chunks[..k + 1]) <= TotalLength(chunks)
  {
    assert chunks[..k + 1][..k] == chunks[..k];
    FlattenAppend(chunks[..k + 1], chunks[k + 1..]);
    assert chunks[..k + 1] + chunks[k + 1..] == chunks;
    FlattenLength(chunks);
    FlattenLength(chunks[..k + 1]);
  }

  /** `copy(b[at:], item)` into a buffer with enough room. */
  method Copy(b: array<Byte>, at: nat, item: array<Byte>)
    requires at + item.Length <= b.Length && b != item
    modifies b
    ensures b[..at] == old(b[..at]) && b[at..at + item.Length] == item[..]
    ensures b[at + item.Length..] == old(b[at + item.Length..])
    ensures b[..at + item.Length] == old(b[..at]) + item[..]
  {
    forall i | 0 <= i < item.Length {
      b[at + i] := item[i];
    }
  }

  class Queue {
    var first: Node?
    var last: Node?
    var size: int

    /** The chunks held, the chain of nodes that holds them, and the objects the queue owns. */
    ghost var contents: seq<Text>
    ghost var chain: seq<Node>
    ghost var repr: set<object>

    /** The chain is acyclic and ends at `last` whenever it is non-empty; after the queue was
        drained `last` is stale. `size` is the number of bytes held. */
    ghost predicate Valid()
      reads this, repr
      ensures Valid() ==> this in repr
    {
      this in repr
      && |chain| == |contents|
      && (forall k :: 0 <= k < |chain| ==> chain[k] in repr && chain[k].item in repr && chain[k].item[..] == contents[k])
      && Distinct(chain)
      && (first == null <==> chain == [])
      && (chain != [] ==> first == chain[0] && last == chain[|chain| - 1] && chain[|chain| - 1].next == null)
      && (forall k :: 0 <= k < |chain| - 1 ==> chain[k].next == chain[k + 1])
      && size == TotalLength(contents)
    }

    constructor ()
      ensures Valid() && fresh(repr) && contents == []
    {
      first, last, size := null, null, 0;
      contents, chain, repr := [], [], {this};
    }

    /** Puts a new node behind the last one. */
    method Link(l: Node)
      requires Valid() && l !in repr && l.next == null && l.item !in repr
      modifies repr
      ensures Valid() && repr == old(repr) + {l, l.item}
      ensures contents == old(contents) + [l.item[..]]
    {
      hide Distinct, TotalLength;
      DistinctAppend(chain, l);
      TotalLengthMore(contents, l.item[..]);
      if first == null {
        first := l;
      } else {
        DistinctAt(chain, |chain| - 1);
        last.next := l;
      }
      last := l;
      size := size + l.item.Length;
      contents := contents + [l.item[..]];
      chain := chain + [l];
      repr := repr + {l, l.item};
    }

    /** Appends a copy of the caller's bytes; the queue shares no memory with the caller. */
    method Push(b: array<Byte>)
      requires Valid() && b !in repr
      modifies repr
      ensures Valid() && fresh(repr - old(repr)) && b !in repr
      ensures contents == old(contents) + [old(b[..])] && b[..] == old(b[..])
    {
      var item := new Byte[b.Length](i requires 0 <= i < b.Length reads b => b[i]);
      assert item[..] == b[..];
      var l := new Node(item);
      Link(l);
    }

    /** Takes the first node out of the chain. */
    method Unlink() returns (item: array<Byte>)
      requires Valid() && first != null
      modifies this
      ensures Valid() && repr == old(repr) && old(contents) != []
      ensures item[..] == old(contents)[0] && contents == old(contents)[1..]
    {
      hide Distinct, TotalLength;
      var f := first;
      assert |chain| > 1 ==> f.next == chain[1];
      TotalLengthTail(contents);
      DistinctTail(chain);
      item := f.item;
      first := f.next;
      size := size - item.Length;
      contents := contents[1..];
      chain := chain[1..];
    }

    /** Takes the oldest chunk off; nil on an empty queue. */
    method Pop() returns (b: array?<Byte>)
      requires Valid()
      modifies this
      ensures Valid() && repr == old(repr)
      ensures b == null <==> old(contents) == []
      ensures b == null ==> contents == []
      ensures b != null ==> fresh(b) && b[..] == old(contents)[0] && contents == old(contents)[1..]
    {
      if first == null {
        return null;
      }
      var item := Unlink();
      b := new Byte[item.Length](i requires 0 <= i < item.Length reads item => item[i]);
      assert b[..] == item[..];
    }

    /** All bytes held, in order, in a buffer of their own that is filled exactly. */
    method GetAll() returns (b: array<Byte>)
      requires Valid()
      ensures fresh(b) && b[..] == Flatten(contents)
    {
      FlattenLength(contents);
      b := new Byte[size];
      var cp := 0;
      var n := first;
      ghost var k := 0;
      while n != null
        invariant 0 <= k <= |chain| && n == (if k < |chain| then chain[k] else null)
        invariant cp == TotalLength(contents[..k]) <= b.Length
        invariant b[..cp] == Flatten(contents[..k])
        decreases |chain| - k
      {
        FlattenPrefix(contents, k);
        assert n.item[..] == contents[k];
        Copy(b, cp, n.item);
        cp := cp + n.item.Length;
        n := n.next;
        k := k + 1;
      }
      assert contents[..k] == contents;
      assert b[..] == b[..cp];
    }
  }

  lemma DistinctTail(s: seq<Node>)
    requires Distinct(s) && s != []
    ensures Distinct(s[1..])
  {
  }
}
