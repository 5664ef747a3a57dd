/**
 The doubly linked lists all relay tables are made of: adding in front, unlinking, and the walk that
 unlinks elements while it passes over them. The lists stay well formed and behave like the
 sequences the rest of the model uses.
 */
module LinkedList {
  import opened Base

  class Node<T> {
    var val: T
    var next: Node?<T>
    var prev: Node?<T>

    constructor (val: T)
      ensures this.val == val && next == null && prev == null
    {
      this.val, next, prev := val, null, null;
    }
  }

  class DList<T> {
    var head: Node?<T>
    ghost var nodes: seq<Node<T>>
    ghost var cells: set<object>  // the nodes that are or were in the list

    /** Following `next` from the head visits `nodes`, and `prev` points back along the way. */
    ghost predicate Valid()
      reads this, cells
    {
      && head == At(0) && this !in cells
      && (forall i :: 0 <= i < |nodes| ==> nodes[i] in cells)
      && (forall i, j :: 0 <= i < j < |nodes| ==> nodes[i] != nodes[j])
      && (forall i {:trigger nodes[i].next} :: 0 <= i < |nodes| ==> nodes[i].next == At(i + 1))
      && (forall i {:trigger nodes[i].prev} :: 0 <= i < |nodes| ==> nodes[i].prev == At(i - 1))
    }

    ghost function At(i: int): Node?<T>
      reads this
    {
      Pick(nodes, i)
    }

    static ghost function Pick(s: seq<Node<T>>, i: int): Node?<T> {
      if 0 <= i < |s| then s[i] else null
    }

    /** The elements of the list, first to last. */
    ghost function Contents(): (s: seq<T>)
      reads this, nodes
      ensures |s| == |nodes|
      ensures forall i {:trigger s[i]} :: 0 <= i < |nodes| ==> s[i] == nodes[i].val
    {
      seq(|nodes|, i requires 0 <= i < |nodes| reads this, nodes => nodes[i].val)
    }

    constructor ()
      ensures Valid() && nodes == []
    {
      head, nodes, cells := null, [], {};
    }

    method Add(e: Node<T>)
      requires Valid() && e !in nodes && e.prev == null
      modifies this, cells, e
      ensures Valid() && cells == old(cells) + {e}
      ensures nodes == [e] + old(nodes) && Contents() == [e.val] + old(Contents())
      ensures forall x :: x in nodes ==> x.val == old(x.val)
    {
      if head != null {
        head.prev := e;
      }
      e.next := head;
      head := e;
      nodes, cells := [e] + nodes, cells + {e};
    }

    /** `was` is the list in which the neighbours of the element at `k` point past it. */
    ghost predicate Bypassed(was: seq<Node<T>>, k: nat)
      requires k < |was|
      reads `head, `cells, cells
    {
      && this !in cells && head == Pick(was, if k == 0 then 1 else 0)
      && (forall i :: 0 <= i < |was| ==> was[i] in cells)
      && (forall i, j :: 0 <= i < j < |was| ==> was[i] != was[j])
      && (forall i {:trigger was[i].next} :: 0 <= i < |was| ==>
                                               was[i].next == Pick(was, if i + 1 == k then k + 1 else i + 1))
      && (forall i {:trigger was[i].prev} :: 0 <= i < |was| ==>
                                               was[i].prev == Pick(was, if i == k + 1 then k - 1 else i - 1))
    }

    method Bypass(e: Node<T>, ghost k: nat)
      requires Valid() && k < |nodes| && nodes[k] == e
      modifies `head, cells
      ensures nodes == old(nodes) && cells == old(cells) && this !in cells
      ensures Bypassed(nodes, k) && e.next == old(e.next)
      ensures forall x :: x in nodes ==> x.val == old(x.val)
    {
      if head == e {
        head := e.next;
      }
      if e.prev != null {
        e.prev.next := e.next;
      }
      if e.next != null {
        e.next.prev := e.prev;
      }
    }

    lemma Relinked(was: seq<Node<T>>, k: nat)
      requires k < |was| && Bypassed(was, k) && nodes == was[..k] + was[k + 1..]
      ensures Valid()
    {
      hide Pick;
      forall i: int
        ensures Pick(nodes, i) == Pick(was, if i < k then i else i + 1)
      {
        Shifted(was, nodes, k, i);
      }
      forall i, j | 0 <= i < j < |nodes|
        ensures nodes[i] != nodes[j]
      {
        var i', j' := if i < k then i else i + 1, if j < k then j else j + 1;
        assert nodes[i] == was[i'] && nodes[j] == was[j'];
      }
      forall i | 0 <= i < |nodes|
        ensures nodes[i] in cells && nodes[i].next == Pick(nodes, i + 1) && nodes[i].prev == Pick(nodes, i - 1)
      {
        if i < k {
          assert nodes[i] == was[i];
        } else {
          assert nodes[i] == was[i + 1];
        }
      }
    }

    static lemma Shifted(was: seq<Node<T>>, rest: seq<Node<T>>, k: nat, i: int)
      requires k < |was| && rest == was[..k] + was[k + 1..]
      ensures Pick(rest, i) == Pick(was, if i < k then i else i + 1)
    {
    }

    lemma ApartFromCells()
      requires Valid()
      ensures this !in cells
    {
    }

    lemma ContentsWithout(was: seq<Node<T>>, vals: seq<T>, k: nat)
      requires k < |was| == |vals| && nodes == was[..k] + was[k + 1..]
      requires forall i :: 0 <= i < |was| ==> was[i].val == vals[i]
      ensures Contents() == vals[..k] + vals[k + 1..]
    {
    }

    /** Unlinks one element, wherever it stands. */
    method Remove(e: Node<T>, ghost k: nat)
      requires Valid() && k < |nodes| && nodes[k] == e
      modifies this, cells
      ensures Valid() && cells == old(cells) && nodes == old(nodes)[..k] + old(nodes)[k + 1..]
      ensures Contents() == old(Contents())[..k] + old(Contents())[k + 1..]
      ensures forall x :: x in old(nodes) ==> x.val == old(x.val)
      ensures e.next == old(e.next)
    {
      hide Valid, Bypassed;
      ApartFromCells();
      ghost var was, vals := nodes, Contents();
      Bypass(e, k);
      nodes := nodes[..k] + nodes[k + 1..];
      Relinked(was, k);
      ContentsWithout(was, vals, k);
    }

    /** Visits one element: unlinks it if `drop` says so, and returns the one after it. */
    method Visit(i: Node<T>, ghost k: nat, drop: T -> bool) returns (next: Node?<T>)
      requires Valid() && k < |nodes| && nodes[k] == i
      modifies this, cells
      ensures Valid() && cells == old(cells)
      ensures var kept := Guard(Not(drop))(old(i.val));
              Contents() == Splice(old(Contents()), k, kept) && next == At(k + |kept|)
    {
      SpliceForms(Contents(), k, i.val);
      next := i.next;
      if drop(i.val) {
        Remove(i, k);
      }
    }

    /** Walks the list, going on from the element after each one it unlinks. */
    method RemoveAll(drop: T -> bool)
      requires Valid()
      modifies this, cells
      ensures Valid() && Contents() == Filter(Not(drop), old(Contents()))
    {
      hide Swept, Splice, Pass, FlatMap, Guard, Valid;
      ghost var all, front := Contents(), [];
      ghost var keep, n := Guard(Not(drop)), 0;
      AtHead();
      var i := head;
      SweepStart(keep, all);
      while i != null
        invariant Valid() && cells == old(cells)
        invariant |front| <= |nodes| && i == At(|front|)
        invariant Swept(keep, all, n, front, Contents())
        decreases |all| - n
      {
        SweepNext(keep, all, n, front, Contents());
        i := Visit(i, |front|, drop);
        front := front + keep(all[n]);
        n := n + 1;
      }
      SweepEnd(keep, all, n, front, Contents());
    }

    lemma AtHead()
      requires Valid()
      ensures head == At(0)
    {
    }
  }

  function Not<T>(p: T -> bool): T -> bool {
    (x: T) => !p(x)
  }
}
