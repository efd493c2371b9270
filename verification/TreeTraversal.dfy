/**
 Lazy pre-order traversal of a directory tree by a producer that looks at its consumer before every
 step: a node's children are asked for only while the consumer still wants more.
 */
module TreeTraversal {
  // A node whose value could not be read has no children.
  datatype Tree<T> = Tree(item: T, failed: bool, children: seq<Tree<T>>)

  /// The full traversal.

  function PreOrder<T>(node: Tree<T>): seq<Tree<T>>
    decreases node, 1
  {
    [node] + if node.failed then [] else PreOrderAll(node.children)
  }

  function PreOrderAll<T>(nodes: seq<Tree<T>>): seq<Tree<T>>
    decreases nodes, 0
  {
    if nodes == [] then [] else PreOrder(nodes[0]) + PreOrderAll(nodes[1..])
  }

  // The number of nodes a traversal comes to.
  function Size<T>(node: Tree<T>): nat
    decreases node, 1
  {
    1 + if node.failed then 0 else SizeAll(node.children)
  }

  function SizeAll<T>(nodes: seq<Tree<T>>): nat
    decreases nodes, 0
  {
    if nodes == [] then 0 else Size(nodes[0]) + SizeAll(nodes[1..])
  }

  lemma {:induction false} SizeIsLength<T>(node: Tree<T>)
    ensures |PreOrder(node)| == Size(node)
    decreases node, 1
  {
    if !node.failed {
      SizesAreLengths(node.children);
    }
  }

  lemma {:induction false} SizesAreLengths<T>(nodes: seq<Tree<T>>)
    ensures |PreOrderAll(nodes)| == SizeAll(nodes)
    decreases nodes, 0
  {
    if nodes != [] {
      SizeIsLength(nodes[0]);
      SizesAreLengths(nodes[1..]);
    }
  }

  // One sequence is part of another, from position k on.
  predicate OccursAt<A(==)>(whole: seq<A>, part: seq<A>, k: nat) {
    k + |part| <= |whole| && whole[k..k + |part|] == part
  }

  lemma OccursLater<A>(front: seq<A>, back: seq<A>, part: seq<A>, k: nat)
    requires OccursAt(back, part, k)
    ensures OccursAt(front + back, part, |front| + k)
  {
  }

  lemma OccursFirst<A>(front: seq<A>, back: seq<A>)
    ensures OccursAt(front + back, front, 0)
  {
  }

  lemma {:induction false} SiblingsInOrder<T>(nodes: seq<Tree<T>>, i: nat)
    requires i < |nodes|
    ensures OccursAt(PreOrderAll(nodes), PreOrder(nodes[i]), SizeAll(nodes[..i]))
    decreases i
  {
    hide PreOrder, Size, PreOrderAll, SizeAll, OccursAt;
    FirstSibling(nodes, i);
    if i > 0 {
      SiblingsInOrder(nodes[1..], i - 1);
      assert nodes[1..][i - 1] == nodes[i];
      SizeIsLength(nodes[0]);
      OccursLater(PreOrder(nodes[0]), PreOrderAll(nodes[1..]), PreOrder(nodes[i]), SizeAll(nodes[1..][..i - 1]));
    } else {
      OccursFirst(PreOrder(nodes[0]), PreOrderAll(nodes[1..]));
    }
  }

  lemma FirstSibling<T>(nodes: seq<Tree<T>>, i: nat)
    requires i < |nodes|
    ensures PreOrderAll(nodes) == PreOrder(nodes[0]) + PreOrderAll(nodes[1..])
    ensures SizeAll(nodes[..i]) == if i == 0 then 0 else Size(nodes[0]) + SizeAll(nodes[1..][..i - 1])
  {
    if i > 0 {
      assert nodes[..i][1..] == nodes[1..][..i - 1];
    }
  }

  /**
   A node comes first, and the nodes under each of its children come together, after all those under the
   children to its left.
   */
  lemma ParentsFirstLeftToRight<T>(node: Tree<T>, i: nat)
    requires !node.failed && i < |node.children|
    ensures PreOrder(node)[0] == node && |PreOrder(node)| == Size(node)
    ensures OccursAt(PreOrder(node), PreOrder(node.children[i]), 1 + SizeAll(node.children[..i]))
  {
    hide OccursAt, PreOrderAll, SizeAll;
    SizeIsLength(node);
    SiblingsInOrder(node.children, i);
    OccursLater([node], PreOrderAll(node.children), PreOrder(node.children[i]), SizeAll(node.children[..i]));
  }

  // An item in the tree, with no unreadable directory above it.
  predicate InTree<T(==)>(item: T, node: Tree<T>) {
    node.item == item || (!node.failed && exists child <- node.children :: InTree(item, child))
  }

  predicate HasItem<T(==)>(nodes: seq<Tree<T>>, item: T) {
    exists n <- nodes :: n.item == item
  }

  predicate InSome<T(==)>(item: T, nodes: seq<Tree<T>>) {
    exists child <- nodes :: InTree(item, child)
  }

  lemma {:induction false} ItemsAreInTree<T>(item: T, node: Tree<T>)
    ensures HasItem(PreOrder(node), item) <==> InTree(item, node)
    decreases node, 1
  {
    hide InSome, HasItem;
    HasInEither([node], if node.failed then [] else PreOrderAll(node.children), item);
    HasOne(node, item);
    if node.failed {
      HasNone(item);
    } else {
      ItemsOfChildren(item, node.children);
      InChildren(item, node);
    }
  }

  lemma HasInEither<T>(front: seq<Tree<T>>, back: seq<Tree<T>>, item: T)
    ensures HasItem(front + back, item) <==> HasItem(front, item) || HasItem(back, item)
  {
    assert forall n :: n in front + back <==> n in front || n in back;
  }

  lemma HasOne<T>(node: Tree<T>, item: T)
    ensures HasItem([node], item) <==> node.item == item
  {
  }

  lemma HasNone<T>(item: T)
    ensures !HasItem([], item)
  {
  }

  lemma InChildren<T>(item: T, node: Tree<T>)
    requires !node.failed
    ensures InTree(item, node) <==> node.item == item || InSome(item, node.children)
  {
  }

  lemma InFirstOrOthers<T>(item: T, nodes: seq<Tree<T>>)
    requires nodes != []
    ensures InSome(item, nodes) <==> InTree(item, nodes[0]) || InSome(item, nodes[1..])
  {
    hide InTree;
    assert nodes == [nodes[0]] + nodes[1..];
  }

  lemma {:induction false} ItemsOfChildren<T>(item: T, nodes: seq<Tree<T>>)
    ensures HasItem(PreOrderAll(nodes), item) <==> InSome(item, nodes)
    decreases nodes, 0
  {
    if nodes != [] {
      hide PreOrder, InTree, HasItem, InSome;
      ItemsAreInTree(item, nodes[0]);
      ItemsOfChildren(item, nodes[1..]);
      HasInEither(PreOrder(nodes[0]), PreOrderAll(nodes[1..]), item);
      InFirstOrOthers(item, nodes);
    }
  }

  /// A consumer taking nodes one by one.

  // The items received, and those whose children have been asked for.
  datatype Progress<T> = Progress(received: seq<T>, asked: seq<T>)

  // `wants` tells whether the consumer is still subscribed after receiving some items.
  function Offer<T>(p: Progress<T>, wants: seq<T> -> bool, node: Tree<T>): Progress<T> {
    if !wants(p.received) then p else
    var received := p.received + [node.item];
    Progress(received, if !node.failed && wants(received) then p.asked + [node.item] else p.asked)
  }

  function OfferAll<T>(p: Progress<T>, wants: seq<T> -> bool, nodes: seq<Tree<T>>): Progress<T>
    decreases nodes
  {
    if nodes == [] then p else OfferAll(Offer(p, wants, nodes[0]), wants, nodes[1..])
  }

  lemma {:induction false} OfferAppend<T>(p: Progress<T>, wants: seq<T> -> bool, front: seq<Tree<T>>, back: seq<Tree<T>>)
    ensures OfferAll(p, wants, front + back) == OfferAll(OfferAll(p, wants, front), wants, back)
    decreases front
  {
    if front == [] {
      assert front + back == back;
    } else {
      assert (front + back)[1..] == front[1..] + back;
      OfferAppend(Offer(p, wants, front[0]), wants, front[1..], back);
    }
  }

  lemma {:induction false} UnsubscribedStays<T>(p: Progress<T>, wants: seq<T> -> bool, nodes: seq<Tree<T>>)
    requires !wants(p.received)
    ensures OfferAll(p, wants, nodes) == p
    decreases nodes
  {
    if nodes != [] {
      UnsubscribedStays(p, wants, nodes[1..]);
    }
  }

  lemma {:induction false} PreOrderAppend<T>(front: seq<Tree<T>>, last: Tree<T>)
    ensures PreOrderAll(front + [last]) == PreOrderAll(front) + PreOrder(last)
  {
    if front == [] {
      assert front + [last] == [last];
      assert [last][1..] == [];
      assert PreOrder(last) + [] == PreOrder(last);
    } else {
      assert (front + [last])[1..] == front[1..] + [last];
      PreOrderAppend(front[1..], last);
    }
  }

  class Subscriber<T> {
    const wants: seq<T> -> bool
    var received: seq<T>
    var asked: seq<T>

    constructor (wants: seq<T> -> bool)
      ensures this.wants == wants && State() == Progress([], [])
    {
      this.wants := wants;
      received, asked := [], [];
    }

    function State(): Progress<T>
      reads this
    {
      Progress(received, asked)
    }

    predicate IsSubscribed()
      reads this
    {
      wants(received)
    }

    method OnNext(item: T)
      modifies this
      ensures received == old(received) + [item] && asked == old(asked)
    {
      received := received + [item];
    }
  }

  // Reading the children of a directory, recorded with the subscriber.
  method GetChildren<T>(dest: Subscriber<T>, node: Tree<T>) returns (children: seq<Tree<T>>)
    modifies dest
    ensures children == node.children
    ensures dest.received == old(dest.received) && dest.asked == old(dest.asked) + [node.item]
  {
    dest.asked := dest.asked + [node.item];
    return node.children;
  }

  /**
   The traversal. Its effect is that of offering the nodes of the whole pre-order one after the other
   to the consumer: nothing is emitted, and no children are asked for, beyond what it wants.
   */
  method Traverse<T>(dest: Subscriber<T>, node: Tree<T>)
    modifies dest
    ensures dest.State() == OfferAll(old(dest.State()), dest.wants, PreOrder(node))
    decreases node
  {
    hide PreOrder, PreOrderAll, OfferAll;
    OfferNode(dest.State(), dest.wants, node);
    if !dest.IsSubscribed() {
      UnsubscribedStays(dest.State(), dest.wants, PreOrder(node));
      return;
    }
    dest.OnNext(node.item);
    if node.failed {
      return;
    }
    if !dest.IsSubscribed() {
      UnsubscribedStays(dest.State(), dest.wants, PreOrderAll(node.children));
      return;
    }
    var children := GetChildren(dest, node);
    ghost var start := dest.State();
    NothingOffered(start, dest.wants, children);
    for i := 0 to |children|
      invariant dest.State() == OfferAll(start, dest.wants, PreOrderAll(children[..i]))
    {
      assert children[i] in node.children;
      assert children[..i + 1] == children[..i] + [children[i]];
      PreOrderAppend(children[..i], children[i]);
      OfferAppend(start, dest.wants, PreOrderAll(children[..i]), PreOrder(children[i]));
      Traverse(dest, children[i]);
      if !dest.IsSubscribed() {
        RestIsSkipped(start, dest.wants, children, i + 1);
        break;
      }
    }
    assert children[..|children|] == children;
  }

  lemma OfferNode<T>(p: Progress<T>, wants: seq<T> -> bool, node: Tree<T>)
    ensures OfferAll(p, wants, PreOrder(node)) ==
            if node.failed then Offer(p, wants, node)
            else OfferAll(Offer(p, wants, node), wants, PreOrderAll(node.children))
  {
    assert PreOrder(node)[1..] == if node.failed then [] else PreOrderAll(node.children);
  }

  lemma NothingOffered<T>(p: Progress<T>, wants: seq<T> -> bool, nodes: seq<Tree<T>>)
    ensures OfferAll(p, wants, PreOrderAll(nodes[..0])) == p
  {
  }

  // Once the consumer has unsubscribed, the remaining children change nothing.
  lemma {:induction false} RestIsSkipped<T>(p: Progress<T>, wants: seq<T> -> bool, nodes: seq<Tree<T>>, n: nat)
    requires n <= |nodes| && !wants(OfferAll(p, wants, PreOrderAll(nodes[..n])).received)
    ensures OfferAll(p, wants, PreOrderAll(nodes)) == OfferAll(p, wants, PreOrderAll(nodes[..n]))
    decreases |nodes| - n
  {
    if n == |nodes| {
      assert nodes[..n] == nodes;
    } else {
      assert nodes[..n + 1] == nodes[..n] + [nodes[n]];
      PreOrderAppend(nodes[..n], nodes[n]);
      OfferAppend(p, wants, PreOrderAll(nodes[..n]), PreOrder(nodes[n]));
      UnsubscribedStays(OfferAll(p, wants, PreOrderAll(nodes[..n])), wants, PreOrder(nodes[n]));
      RestIsSkipped(p, wants, nodes, n + 1);
    }
  }

  /// What the consumer sees.

  function Items<T>(nodes: seq<Tree<T>>): seq<T> {
    seq(|nodes|, i requires 0 <= i < |nodes| => nodes[i].item)
  }

  // The items of nodes that have children to ask for.
  function Expandable<T>(nodes: seq<Tree<T>>): seq<T> {
    if nodes == [] then [] else
    Expandable(nodes[..|nodes| - 1]) +
    if nodes[|nodes| - 1].failed then [] else [nodes[|nodes| - 1].item]
  }

  /**
   The consumer receives exactly the first nodes of the pre-order, up to and including the first one
   after which it wants no more, or all of them; and the children asked for are exactly those of the
   received nodes that have a value, except the last one when it is the one that ended it.
   */
  lemma {:induction false} LazyPrefix<T>(wants: seq<T> -> bool, nodes: seq<Tree<T>>) returns (k: nat)
    ensures k <= |nodes| && (forall j | 0 <= j < k :: wants(Items(nodes[..j])))
    ensures k < |nodes| ==> !wants(Items(nodes[..k]))
    ensures var p := OfferAll(Progress([], []), wants, nodes);
            p.received == Items(nodes[..k]) &&
            p.asked == Expandable(nodes[..if k > 0 && !wants(Items(nodes[..k])) then k - 1 else k])
    decreases |nodes|
  {
    hide OfferAll;
    if nodes == [] {
      NothingOffered(Progress([], []), wants, nodes);
      assert nodes[..0] == nodes;
      return 0;
    }
    var n := |nodes| - 1;
    var front, last := nodes[..n], nodes[n];
    k := LazyPrefix(wants, front);
    OfferLast(wants, nodes);
    forall j | 0 <= j <= n ensures nodes[..j] == front[..j] {}
    assert nodes[..n] == front[..n] == front;
    if k == n && wants(Items(front)) {
      k := n + 1;
      assert nodes[..k] == nodes;
      assert Items(nodes) == Items(front) + [last.item];
    }
  }

  // Offering one more node.
  lemma OfferLast<T>(wants: seq<T> -> bool, nodes: seq<Tree<T>>)
    requires nodes != []
    ensures var front, last := nodes[..|nodes| - 1], nodes[|nodes| - 1];
            OfferAll(Progress([], []), wants, nodes) == Offer(OfferAll(Progress([], []), wants, front), wants, last)
  {
    var front, last := nodes[..|nodes| - 1], nodes[|nodes| - 1];
    assert nodes == front + [last];
    OfferAppend(Progress([], []), wants, front, [last]);
    assert [last][1..] == [];
  }
}
