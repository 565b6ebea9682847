/** The intrusive circular list: a sentinel node and the nodes embedded in its entries, linked both
    ways. The pointer structure always represents a sequence of nodes. */
module IntrusiveList {

  class Node {
    var prev: Node?
    var next: Node?

    constructor ()
      ensures prev == null && next == null
    {
      prev, next := null, null;
    }
  }

  /** The i-th node of the ring, counting the sentinel at both ends. */
  ghost function At(list: Node, items: seq<Node>, i: int): Node
    requires -1 <= i <= |items|
  {
    if 0 <= i < |items| then items[i] else list
  }

  ghost predicate Distinct(list: Node, items: seq<Node>) {
    && list !in items
    && forall i, j :: 0 <= i < j < |items| ==> items[i] != items[j]
  }

  /** The i-th node and the one before it point at each other. */
  ghost predicate Joined(list: Node, items: seq<Node>, i: nat)
    requires i <= |items|
    reads list, items
  {
    At(list, items, i - 1).next == At(list, items, i) && At(list, items, i).prev == At(list, items, i - 1)
  }

  ghost predicate Linked(list: Node, items: seq<Node>)
    reads list, items
  {
    forall i :: 0 <= i <= |items| ==> Joined(list, items, i)
  }

  ghost predicate Represents(list: Node, items: seq<Node>)
    reads list, items
  {
    Distinct(list, items) && Linked(list, items)
  }

  method Initialize(list: Node)
    modifies list
    ensures Represents(list, [])
  {
    list.prev, list.next := list, list;
  }

  /** Only the sentinel, the last entry and the new node are written. */
  method AddTail(list: Node, item: Node, ghost items: seq<Node>)
    requires Represents(list, items) && item != list && item !in items
    modifies list, At(list, items, |items| - 1), item
    ensures Represents(list, items + [item])
  {
    ghost var n := |items|;
    assert Joined(list, items, n);
    item.prev := list.prev;
    item.next := list;
    list.prev.next := item;
    list.prev := item;
    ghost var longer := items + [item];
    forall i | 0 <= i <= |longer| ensures Joined(list, longer, i) {
      if i < n {
        assert old(Joined(list, items, i));
        assert At(list, longer, i - 1) == At(list, items, i - 1) && At(list, longer, i) == At(list, items, i);
      }
    }
  }

  /** The sequence without its k-th node. */
  ghost function Without(items: seq<Node>, k: nat): seq<Node>
    requires k < |items|
  {
    items[..k] + items[k + 1..]
  }

  /** Unlinks the k-th node and clears its own links; only its two neighbours are written besides. */
  method Delete(list: Node, item: Node, ghost items: seq<Node>, ghost k: nat)
    requires Represents(list, items) && k < |items| && items[k] == item
    modifies item, At(list, items, k - 1), At(list, items, k + 1)
    ensures Represents(list, Without(items, k))
    ensures item.prev == null && item.next == null
  {
    ghost var before, after := At(list, items, k - 1), At(list, items, k + 1);
    assert Joined(list, items, k) && Joined(list, items, k + 1);
    item.next.prev := item.prev;
    item.prev.next := item.next;
    item.prev, item.next := null, null;
    ghost var shorter := Without(items, k);
    forall i | 0 <= i <= |shorter| ensures Joined(list, shorter, i) {
      if i < k {
        assert old(Joined(list, items, i));
        assert At(list, shorter, i) == At(list, items, i) && At(list, shorter, i - 1) == At(list, items, i - 1);
      } else if i > k {
        assert old(Joined(list, items, i + 1));
        assert At(list, shorter, i) == At(list, items, i + 1) && At(list, shorter, i - 1) == At(list, items, i);
      } else {
        assert At(list, shorter, i) == after && At(list, shorter, i - 1) == before;
      }
    }
  }

  /** The nodes that are not to be deleted. */
  ghost function Survivors(items: seq<Node>, doomed: set<Node>): seq<Node> {
    if items == [] then []
    else if items[|items| - 1] in doomed then Survivors(items[..|items| - 1], doomed)
    else Survivors(items[..|items| - 1], doomed) + [items[|items| - 1]]
  }

  lemma {:induction false} SurvivorsAre(items: seq<Node>, doomed: set<Node>, x: Node)
    ensures x in Survivors(items, doomed) <==> x in items && x !in doomed
    decreases |items|
  {
    if items != [] {
      assert items == items[..|items| - 1] + [items[|items| - 1]];
      SurvivorsAre(items[..|items| - 1], doomed, x);
    }
  }

  /** The list when the traversal has passed the first `n` nodes. */
  ghost function Passed(items: seq<Node>, doomed: set<Node>, n: nat): seq<Node>
    requires n <= |items|
  {
    Survivors(items[..n], doomed) + items[n..]
  }

  lemma PassOne(items: seq<Node>, doomed: set<Node>, n: nat)
    requires n < |items|
    ensures var now, k := Passed(items, doomed, n), |Survivors(items[..n], doomed)|;
      && k < |now| && now[k] == items[n]
      && Passed(items, doomed, n + 1) == if items[n] in doomed then Without(now, k) else now
  {
    assert items[..n + 1][..n] == items[..n];
    assert items[n..] == [items[n]] + items[n + 1..];
  }

  /** Where the traversal stands, seen in the original list and in the current one. */
  lemma SamePlace(list: Node, items: seq<Node>, doomed: set<Node>, n: nat)
    requires n <= |items|
    ensures var now, k := Passed(items, doomed, n), |Survivors(items[..n], doomed)|;
      && k <= |now| && (k < |now| <==> n < |items|)
      && At(list, now, k) == At(list, items, n)
      && (n < |items| ==> At(list, now, k + 1) == At(list, items, n + 1))
  {
  }

  /** The body of the traversal on the n-th node of the original list: it may delete that node. */
  method VisitNode(list: Node, node: Node, doomed: set<Node>, ghost items: seq<Node>, ghost n: nat)
    requires n < |items| && node == items[n] && Represents(list, Passed(items, doomed, n))
    modifies list, items
    ensures Represents(list, Passed(items, doomed, n + 1))
    ensures node in doomed ==> node.prev == null && node.next == null
  {
    PassOne(items, doomed, n);
    if node in doomed {
      ghost var now, k := Passed(items, doomed, n), |Survivors(items[..n], doomed)|;
      PassedNodes(items, doomed, n);
      assert forall i :: 0 <= i < |now| ==> now[i] in items;
      Delete(list, node, now, k);
    }
  }

  /** The traversal stands on the n-th node of the original list and knows its successor. */
  ghost predicate Standing(list: Node, node: Node?, temp: Node?, items: seq<Node>, doomed: set<Node>, n: nat)
    requires n <= |items|
    reads list, Passed(items, doomed, n)
  {
    && Represents(list, Passed(items, doomed, n))
    && node == At(list, items, n)
    && (n < |items| ==> temp == At(list, items, n + 1))
  }

  lemma StandingFirst(list: Node, items: seq<Node>, doomed: set<Node>)
    requires Represents(list, items)
    ensures Represents(list, Passed(items, doomed, 0))
    ensures list.next == At(list, items, 0)
  {
    assert Joined(list, items, 0);
    assert Passed(items, doomed, 0) == items;
  }

  /** The traversal that is safe against removal. Whichever nodes the body deletes while it stands on
      them, every node of the original list is visited, once and in order, and the list afterwards
      holds the others. The successor is read before the body runs. */
  method ForEverySafe(list: Node, doomed: set<Node>, ghost items: seq<Node>) returns (visited: seq<Node>)
    requires Represents(list, items)
    modifies list, items
    ensures visited == items
    ensures Represents(list, Survivors(items, doomed))
  {
    ghost var n := 0;
    StandingFirst(list, items, doomed);
    var node := list.next;
    SuccessorIs(list, node, items, doomed, 0);
    var temp := node.next;
    visited := [];
    while node != list
      invariant 0 <= n <= |items| && visited == items[..n]
      invariant Standing(list, node, temp, items, doomed, n)
      invariant list !in items
      decreases |items| - n
    {
      visited := visited + [node];
      VisitNode(list, node, doomed, items, n);
      n := n + 1;
      node := temp;
      SuccessorIs(list, node, items, doomed, n);
      temp := node.next;
    }
    assert items[..n] == items && items[n..] == [];
    assert Passed(items, doomed, n) == Survivors(items, doomed);
  }

  lemma PassedNodes(items: seq<Node>, doomed: set<Node>, n: nat)
    requires n <= |items|
    ensures forall i :: 0 <= i < |Passed(items, doomed, n)| ==> Passed(items, doomed, n)[i] in items
  {
    var now := Passed(items, doomed, n);
    forall i | 0 <= i < |now| ensures now[i] in items {
      SurvivorsAre(items[..n], doomed, now[i]);
      assert items == items[..n] + items[n..];
    }
  }

  lemma SuccessorIs(list: Node, node: Node, items: seq<Node>, doomed: set<Node>, n: nat)
    requires n <= |items| && Represents(list, Passed(items, doomed, n)) && node == At(list, items, n)
    ensures node.next != null
    ensures n < |items| ==> node.next == At(list, items, n + 1)
  {
    var now, k := Passed(items, doomed, n), |Survivors(items[..n], doomed)|;
    SamePlace(list, items, doomed, n);
    assert Joined(list, now, 0) && (k < |now| ==> Joined(list, now, k + 1));
  }
}
