/** The branch-and-bound tree drawing example: the node callback
    records each new node as the left or right child of its parent, a
    postorder pass counts the nodes of every subtree, and a preorder
    pass places each node so that a subtree gets a width that grows with
    its size.

    The solver numbers the nodes it creates in increasing order, so a
    child always has a larger number than its parent (`Ordered`); this
    is what makes the two recursive passes end. */
module BBTree {

  /** Every child has a larger number than its parent. */
  predicate Ordered(left: map<int, int>, right: map<int, int>)
  {
    (forall n :: n in left ==> left[n] > n) && (forall n :: n in right ==> right[n] > n)
  }

  /** The nodes with children numbered node or more: the ones the
      recursion from node can still expand. */
  function Above(left: map<int, int>, right: map<int, int>, node: int): set<int>
  {
    set k | k in left.Keys + right.Keys && k >= node
  }

  lemma AboveShrinks(left: map<int, int>, right: map<int, int>, node: int, child: int)
    requires Ordered(left, right)
    requires (node in left && child == left[node]) || (node in right && child == right[node])
    ensures |Above(left, right, child)| < |Above(left, right, node)|
  {
    var a, b := Above(left, right, child), Above(left, right, node);
    assert node in b && node !in a;
    assert a <= b - {node};
    SubsetSize(a, b - {node});
  }

  lemma {:induction false} SubsetSize<T>(a: set<T>, b: set<T>)
    requires a <= b
    ensures |a| <= |b|
    decreases |a|
  {
    if a != {} {
      var x :| x in a;
      SubsetSize(a - {x}, b - {x});
    }
  }

  /** The subtree of node: node and everything below it. */
  function Subtree(left: map<int, int>, right: map<int, int>, node: int): (s: set<int>)
    requires Ordered(left, right)
    ensures node in s
    decreases |Above(left, right, node)|
  {
    var l := if node in left then AboveShrinks(left, right, node, left[node]); Subtree(left, right, left[node]) else {};
    var r := if node in right then AboveShrinks(left, right, node, right[node]); Subtree(left, right, right[node]) else {};
    {node} + l + r
  }

  /** The cardinality `postorder_count` stores for node: one for the node
      and the cardinalities of its children. A node is a leaf exactly
      when it counts one. */
  function Card(left: map<int, int>, right: map<int, int>, node: int): (c: nat)
    requires Ordered(left, right)
    ensures c >= 1
    ensures c == 1 <==> node !in left && node !in right
    decreases |Above(left, right, node)|
  {
    var l := if node in left then AboveShrinks(left, right, node, left[node]); Card(left, right, left[node]) else 0;
    var r := if node in right then AboveShrinks(left, right, node, right[node]); Card(left, right, right[node]) else 0;
    1 + l + r
  }

  /** The order in which `postorder_count` finishes the nodes: the left
      subtree, the right subtree, then the node. */
  function PostOrder(left: map<int, int>, right: map<int, int>, node: int): (s: seq<int>)
    requires Ordered(left, right)
    decreases |Above(left, right, node)|
  {
    var l := if node in left then AboveShrinks(left, right, node, left[node]); PostOrder(left, right, left[node]) else [];
    var r := if node in right then AboveShrinks(left, right, node, right[node]); PostOrder(left, right, right[node]) else [];
    l + r + [node]
  }

  /** The cardinality of a subtree is the number of nodes the postorder
      pass visits in it, and the node is visited last. */
  lemma {:induction false} CardCountsVisits(left: map<int, int>, right: map<int, int>, node: int)
    requires Ordered(left, right)
    ensures Card(left, right, node) == |PostOrder(left, right, node)|
    ensures PostOrder(left, right, node)[|PostOrder(left, right, node)| - 1] == node
    decreases |Above(left, right, node)|
  {
    if node in left {
      AboveShrinks(left, right, node, left[node]);
      CardCountsVisits(left, right, left[node]);
    }
    if node in right {
      AboveShrinks(left, right, node, right[node]);
      CardCountsVisits(left, right, right[node]);
    }
  }

  /** The postorder pass visits exactly the subtree. */
  lemma {:induction false} VisitsSubtree(left: map<int, int>, right: map<int, int>, node: int)
    requires Ordered(left, right)
    ensures forall n :: n in PostOrder(left, right, node) <==> n in Subtree(left, right, node)
    decreases |Above(left, right, node)|
  {
    if node in left {
      AboveShrinks(left, right, node, left[node]);
      VisitsSubtree(left, right, left[node]);
    }
    if node in right {
      AboveShrinks(left, right, node, right[node]);
      VisitsSubtree(left, right, right[node]);
    }
  }

  /** x was finished at some step before step i of s. */
  predicate FinishedBefore(s: seq<int>, i: int, x: int)
  {
    exists j :: 0 <= j < i && j < |s| && s[j] == x
  }

  /** The children of the node finished at step i of s were finished
      before it. */
  predicate ChildrenBefore(left: map<int, int>, right: map<int, int>, s: seq<int>, i: int)
    requires 0 <= i < |s|
  {
    (s[i] in left ==> FinishedBefore(s, i, left[s[i]]))
    && (s[i] in right ==> FinishedBefore(s, i, right[s[i]]))
  }

  /** Children are counted before their parent: wherever a node is
      finished, its children were finished at an earlier step. */
  lemma {:induction false} ChildrenFirst(left: map<int, int>, right: map<int, int>, node: int, i: nat)
    requires Ordered(left, right)
    requires i < |PostOrder(left, right, node)|
    ensures ChildrenBefore(left, right, PostOrder(left, right, node), i)
    decreases |Above(left, right, node)|, 1
  {
    var l := if node in left then PostOrder(left, right, left[node]) else [];
    var r := if node in right then PostOrder(left, right, right[node]) else [];
    if i < |l| {
      ChildrenFirstLeft(left, right, node, i);
    } else if i < |l| + |r| {
      ChildrenFirstRight(left, right, node, i);
    } else {
      var s := PostOrder(left, right, node);
      assert s == l + r + [node];
      assert s[i] == node;
      if node in left {
        CardCountsVisits(left, right, left[node]);
        assert s[|l| - 1] == left[node];
      }
      if node in right {
        CardCountsVisits(left, right, right[node]);
        assert s[|l| + |r| - 1] == right[node];
      }
    }
  }

  lemma {:induction false} ChildrenFirstLeft(left: map<int, int>, right: map<int, int>, node: int, i: nat)
    requires Ordered(left, right)
    requires node in left && i < |PostOrder(left, right, left[node])|
    ensures i < |PostOrder(left, right, node)|
    ensures ChildrenBefore(left, right, PostOrder(left, right, node), i)
    decreases |Above(left, right, node)|, 0
  {
    var l := PostOrder(left, right, left[node]);
    var rest := (if node in right then PostOrder(left, right, right[node]) else []) + [node];
    var s := PostOrder(left, right, node);
    assert s == l + rest;
    AboveShrinks(left, right, node, left[node]);
    ChildrenFirst(left, right, left[node], i);
    FinishedInFirst(l, rest, i, l[i], left);
    FinishedInFirst(l, rest, i, l[i], right);
  }

  lemma {:induction false} ChildrenFirstRight(left: map<int, int>, right: map<int, int>, node: int, i: nat)
    requires Ordered(left, right)
    requires node in right
    requires var n := if node in left then |PostOrder(left, right, left[node])| else 0;
      n <= i < n + |PostOrder(left, right, right[node])|
    ensures i < |PostOrder(left, right, node)|
    ensures ChildrenBefore(left, right, PostOrder(left, right, node), i)
    decreases |Above(left, right, node)|, 0
  {
    var l := if node in left then PostOrder(left, right, left[node]) else [];
    var r := PostOrder(left, right, right[node]);
    var s := PostOrder(left, right, node);
    assert s == l + (r + [node]);
    var k := i - |l|;
    AboveShrinks(left, right, node, right[node]);
    ChildrenFirst(left, right, right[node], k);
    FinishedInFirst(r, [node], k, r[k], left);
    FinishedInFirst(r, [node], k, r[k], right);
    FinishedInSecond(l, r + [node], k, r[k], left);
    FinishedInSecond(l, r + [node], k, r[k], right);
  }

  lemma FinishedInFirst(a: seq<int>, b: seq<int>, i: int, x: int, child: map<int, int>)
    requires 0 <= i < |a| && a[i] == x
    requires x in child ==> FinishedBefore(a, i, child[x])
    ensures x in child ==> FinishedBefore(a + b, i, child[x])
  {
    if x in child {
      var j :| 0 <= j < i && j < |a| && a[j] == child[x];
      assert (a + b)[j] == a[j];
    }
  }

  lemma FinishedInSecond(a: seq<int>, b: seq<int>, i: int, x: int, child: map<int, int>)
    requires 0 <= i < |b| && b[i] == x
    requires x in child ==> FinishedBefore(b, i, child[x])
    ensures x in child ==> FinishedBefore(a + b, |a| + i, child[x])
  {
    if x in child {
      var j :| 0 <= j < i && j < |b| && b[j] == child[x];
      assert (a + b)[|a| + j] == b[j];
    }
  }

  /** The cardinality table after the postorder pass from node, starting
      from the table m: count the left subtree and read the left
      child's entry, count the right subtree and read the right child's
      entry, then write the node's entry. */
  function CountsInto(left: map<int, int>, right: map<int, int>, m: map<int, int>, node: int): (m': map<int, int>)
    requires Ordered(left, right)
    ensures node in m'
    decreases |Above(left, right, node)|
  {
    var m1 := if node in left then AboveShrinks(left, right, node, left[node]); CountsInto(left, right, m, left[node]) else m;
    var c1 := if node in left then m1[left[node]] else 0;
    var m2 := if node in right then AboveShrinks(left, right, node, right[node]); CountsInto(left, right, m1, right[node]) else m1;
    var c2 := if node in right then m2[right[node]] else 0;
    m2[node := 1 + c1 + c2]
  }

  /** After the postorder pass every node of the subtree holds its
      cardinality, and every other entry of the table is unchanged. */
  lemma {:induction false} CountsTable(left: map<int, int>, right: map<int, int>, m: map<int, int>, node: int)
    requires Ordered(left, right)
    ensures var m' := CountsInto(left, right, m, node);
      forall n :: n in Subtree(left, right, node) ==> n in m' && m'[n] == Card(left, right, n)
    ensures var m' := CountsInto(left, right, m, node);
      forall n :: n !in Subtree(left, right, node) ==> (n in m' <==> n in m) && (n in m ==> m'[n] == m[n])
    decreases |Above(left, right, node)|
  {
    var m1 := m;
    if node in left {
      AboveShrinks(left, right, node, left[node]);
      CountsTable(left, right, m, left[node]);
      m1 := CountsInto(left, right, m, left[node]);
    }
    if node in right {
      AboveShrinks(left, right, node, right[node]);
      CountsTable(left, right, m1, right[node]);
    }
  }

  // ---------------------------------------------------------------
  // Layout
  // ---------------------------------------------------------------

  /** The share of its parent's width a subtree gets: a convex
      combination, with weight 0.1, of half the width and the subtree's
      share of the parent's nodes. */
  function ChildWidth(width: real, cardChild: nat, cardNode: nat): real
    requires cardNode > 0
  {
    width * (0.1 * 0.5 + (1.0 - 0.1) * (cardChild as real) / (cardNode as real))
  }

  /** A child subtree narrower than its parent sits inside the parent's
      band: its own band starts (left child) or ends (right child) at
      the parent's edge, and the child itself lies strictly to the left
      or the right of the parent's position. */
  lemma ChildInside(curpos: real, width: real, cardChild: nat, cardNode: nat)
    requires 0.0 < width && 0 < cardChild < cardNode
    ensures var w := ChildWidth(width, cardChild, cardNode);
      var lp := curpos - (width - w) / 2.0;
      var rp := curpos + (width - w) / 2.0;
      0.0 < w < width
      && lp - w / 2.0 == curpos - width / 2.0 && lp < curpos
      && rp + w / 2.0 == curpos + width / 2.0 && rp > curpos
  {
    var ratio := (cardChild as real) / (cardNode as real);
    assert 0.0 < ratio < 1.0;
    var w := ChildWidth(width, cardChild, cardNode);
    assert w == width * (0.05 + 0.9 * ratio);
    assert 0.05 + 0.9 * ratio < 1.0;
  }

  /** The cardinality table holds the cardinality of every node of the
      subtree, as the postorder pass leaves it. */
  predicate Counted(left: map<int, int>, right: map<int, int>, card: map<int, int>, node: int)
    requires Ordered(left, right)
    decreases |Above(left, right, node)|
  {
    node in card && card[node] == Card(left, right, node)
    && (node in left ==> (AboveShrinks(left, right, node, left[node]); Counted(left, right, card, left[node])))
    && (node in right ==> (AboveShrinks(left, right, node, right[node]); Counted(left, right, card, right[node])))
  }

  lemma CountedChild(left: map<int, int>, right: map<int, int>, card: map<int, int>, node: int, child: int)
    requires Ordered(left, right) && Counted(left, right, card, node)
    requires (node in left && child == left[node]) || (node in right && child == right[node])
    ensures Counted(left, right, card, child)
    ensures child in card && node in card && 0 < card[child] < card[node]
  {
  }

  /** A table holding the cardinality of every node of the subtree is
      what `setpos` needs. */
  lemma {:induction false} CountedFromTable(left: map<int, int>, right: map<int, int>, card: map<int, int>, node: int)
    requires Ordered(left, right)
    requires forall n :: n in Subtree(left, right, node) ==> n in card && card[n] == Card(left, right, n)
    ensures Counted(left, right, card, node)
    decreases |Above(left, right, node)|
  {
    if node in left {
      AboveShrinks(left, right, node, left[node]);
      CountedFromTable(left, right, card, left[node]);
    }
    if node in right {
      AboveShrinks(left, right, node, right[node]);
      CountedFromTable(left, right, card, right[node]);
    }
  }

  /** The positions `setpos` gives from node, written in the order it
      writes them: the root (node 1) at (0.5, 1), then the left child
      and its subtree, then the right child and its subtree; a later
      write of the same node replaces an earlier one. */
  function Layout(left: map<int, int>, right: map<int, int>, card: map<int, int>,
                  node: int, curpos: real, width: real, depth: int): map<int, (real, real)>
    requires Ordered(left, right) && Counted(left, right, card, node)
    decreases |Above(left, right, node)|, 2
  {
    Root(node) + LeftPart(left, right, card, node, curpos, width, depth)
      + RightPart(left, right, card, node, curpos, width, depth)
  }

  function Root(node: int): map<int, (real, real)>
  {
    if node == 1 then map[1 := (0.5, 1.0)] else map[]
  }

  /** The left child, shifted left of curpos by half the width it does
      not get, and its subtree. */
  function LeftPart(left: map<int, int>, right: map<int, int>, card: map<int, int>,
                    node: int, curpos: real, width: real, depth: int): map<int, (real, real)>
    requires Ordered(left, right) && Counted(left, right, card, node)
    decreases |Above(left, right, node)|, 1
  {
    if node in left then
      var c := left[node];
      AboveShrinks(left, right, node, c);
      CountedChild(left, right, card, node, c);
      var w := ChildWidth(width, card[c], card[node]);
      Placed(left, right, card, c, curpos - (width - w) / 2.0, w, depth)
    else map[]
  }

  /** The right child, shifted right of curpos, and its subtree. */
  function RightPart(left: map<int, int>, right: map<int, int>, card: map<int, int>,
                     node: int, curpos: real, width: real, depth: int): map<int, (real, real)>
    requires Ordered(left, right) && Counted(left, right, card, node)
    decreases |Above(left, right, node)|, 1
  {
    if node in right then
      var c := right[node];
      AboveShrinks(left, right, node, c);
      CountedChild(left, right, card, node, c);
      var w := ChildWidth(width, card[c], card[node]);
      Placed(left, right, card, c, curpos + (width - w) / 2.0, w, depth)
    else map[]
  }

  /** A child placed at (x, -depth), followed by its own subtree one
      level down in the band of width w around x. */
  function Placed(left: map<int, int>, right: map<int, int>, card: map<int, int>,
                  child: int, x: real, w: real, depth: int): map<int, (real, real)>
    requires Ordered(left, right) && Counted(left, right, card, child)
    decreases |Above(left, right, child)|, 3
  {
    map[child := (x, -(depth as real))] + Layout(left, right, card, child, x, w, depth + 1)
  }

  /** The edges `setpos` adds: node to each child, and the edges below. */
  function Edges(left: map<int, int>, right: map<int, int>, node: int): set<(int, int)>
    requires Ordered(left, right)
    decreases |Above(left, right, node)|, 1
  {
    LeftEdges(left, right, node) + RightEdges(left, right, node)
  }

  function LeftEdges(left: map<int, int>, right: map<int, int>, node: int): set<(int, int)>
    requires Ordered(left, right)
    decreases |Above(left, right, node)|, 0
  {
    if node in left then
      AboveShrinks(left, right, node, left[node]);
      {(node, left[node])} + Edges(left, right, left[node])
    else {}
  }

  function RightEdges(left: map<int, int>, right: map<int, int>, node: int): set<(int, int)>
    requires Ordered(left, right)
    decreases |Above(left, right, node)|, 0
  {
    if node in right then
      AboveShrinks(left, right, node, right[node]);
      {(node, right[node])} + Edges(left, right, right[node])
    else {}
  }

  predicate InBand(m: map<int, (real, real)>, lo: real, hi: real, top: real)
  {
    forall n :: n in m && n != 1 ==> lo < m[n].0 < hi && m[n].1 <= top
  }

  /** Every node below node gets a position strictly inside the band of
      width `width` around `curpos`, at height -depth or lower. */
  lemma {:induction false} LayoutBand(left: map<int, int>, right: map<int, int>, card: map<int, int>,
                                      node: int, curpos: real, width: real, depth: int)
    requires Ordered(left, right) && Counted(left, right, card, node) && 0.0 < width
    ensures InBand(Layout(left, right, card, node, curpos, width, depth),
                   curpos - width / 2.0, curpos + width / 2.0, -(depth as real))
    decreases |Above(left, right, node)|, 2
  {
    var lo, hi, top := curpos - width / 2.0, curpos + width / 2.0, -(depth as real);
    LeftBand(left, right, card, node, curpos, width, depth);
    RightBand(left, right, card, node, curpos, width, depth);
    UnionInBand(Root(node), LeftPart(left, right, card, node, curpos, width, depth),
                RightPart(left, right, card, node, curpos, width, depth), lo, hi, top);
  }

  lemma {:induction false} LeftBand(left: map<int, int>, right: map<int, int>, card: map<int, int>,
                                    node: int, curpos: real, width: real, depth: int)
    requires Ordered(left, right) && Counted(left, right, card, node) && 0.0 < width
    ensures InBand(LeftPart(left, right, card, node, curpos, width, depth),
                   curpos - width / 2.0, curpos + width / 2.0, -(depth as real))
    decreases |Above(left, right, node)|, 1
  {
    if node in left {
      var c := left[node];
      AboveShrinks(left, right, node, c);
      CountedChild(left, right, card, node, c);
      ChildInside(curpos, width, card[c], card[node]);
      var w := ChildWidth(width, card[c], card[node]);
      var x := curpos - (width - w) / 2.0;
      PlacedBand(left, right, card, c, x, w, depth);
      assert x - w / 2.0 == curpos - width / 2.0 && x + w / 2.0 < curpos + width / 2.0;
    }
  }

  lemma {:induction false} RightBand(left: map<int, int>, right: map<int, int>, card: map<int, int>,
                                     node: int, curpos: real, width: real, depth: int)
    requires Ordered(left, right) && Counted(left, right, card, node) && 0.0 < width
    ensures InBand(RightPart(left, right, card, node, curpos, width, depth),
                   curpos - width / 2.0, curpos + width / 2.0, -(depth as real))
    decreases |Above(left, right, node)|, 1
  {
    if node in right {
      var c := right[node];
      AboveShrinks(left, right, node, c);
      CountedChild(left, right, card, node, c);
      ChildInside(curpos, width, card[c], card[node]);
      var w := ChildWidth(width, card[c], card[node]);
      var x := curpos + (width - w) / 2.0;
      PlacedBand(left, right, card, c, x, w, depth);
      assert x + w / 2.0 == curpos + width / 2.0 && curpos - width / 2.0 < x - w / 2.0;
    }
  }

  lemma {:induction false} PlacedBand(left: map<int, int>, right: map<int, int>, card: map<int, int>,
                                      child: int, x: real, w: real, depth: int)
    requires Ordered(left, right) && Counted(left, right, card, child) && 0.0 < w
    ensures InBand(Placed(left, right, card, child, x, w, depth), x - w / 2.0, x + w / 2.0, -(depth as real))
    decreases |Above(left, right, child)|, 3
  {
    LayoutBand(left, right, card, child, x, w, depth + 1);
    var below := Layout(left, right, card, child, x, w, depth + 1);
    var own := map[child := (x, -(depth as real))];
    assert InBand(own, x - w / 2.0, x + w / 2.0, -(depth as real));
    UnionInBand(own, below, map[], x - w / 2.0, x + w / 2.0, -(depth as real));
    assert own + below + map[] == own + below;
  }

  lemma UnionInBand(a: map<int, (real, real)>, b: map<int, (real, real)>, c: map<int, (real, real)>,
                    lo: real, hi: real, top: real)
    requires InBand(a, lo, hi, top) && InBand(b, lo, hi, top) && InBand(c, lo, hi, top)
    ensures InBand(a + b + c, lo, hi, top)
  {
  }

  /** Everything in the subtree of node is numbered node or more. */
  lemma {:induction false} SubtreeAtLeast(left: map<int, int>, right: map<int, int>, node: int)
    requires Ordered(left, right)
    ensures forall n :: n in Subtree(left, right, node) ==> n >= node
    decreases |Above(left, right, node)|
  {
    if node in left {
      AboveShrinks(left, right, node, left[node]);
      SubtreeAtLeast(left, right, left[node]);
    }
    if node in right {
      AboveShrinks(left, right, node, right[node]);
      SubtreeAtLeast(left, right, right[node]);
    }
  }

  /** The subtree of a child, or nothing when there is no child. */
  function ChildSubtree(left: map<int, int>, right: map<int, int>, side: map<int, int>, node: int): set<int>
    requires Ordered(left, right)
  {
    if node in side && side[node] > node then Subtree(left, right, side[node]) else {}
  }

  /** From a node numbered 1 or more, the layout places exactly the
      nodes below it, and node 1 itself when it starts there. */
  lemma {:induction false} LayoutNodes(left: map<int, int>, right: map<int, int>, card: map<int, int>,
                                       node: int, curpos: real, width: real, depth: int)
    requires Ordered(left, right) && Counted(left, right, card, node) && node >= 1
    ensures Layout(left, right, card, node, curpos, width, depth).Keys
         == if node == 1 then Subtree(left, right, node) else Subtree(left, right, node) - {node}
    decreases |Above(left, right, node)|, 2
  {
    var sl, sr := ChildSubtree(left, right, left, node), ChildSubtree(left, right, right, node);
    LeftNodes(left, right, card, node, curpos, width, depth);
    RightNodes(left, right, card, node, curpos, width, depth);
    assert Subtree(left, right, node) == {node} + sl + sr;
  }

  lemma {:induction false} LeftNodes(left: map<int, int>, right: map<int, int>, card: map<int, int>,
                                     node: int, curpos: real, width: real, depth: int)
    requires Ordered(left, right) && Counted(left, right, card, node) && node >= 1
    ensures LeftPart(left, right, card, node, curpos, width, depth).Keys == ChildSubtree(left, right, left, node)
    ensures node !in ChildSubtree(left, right, left, node) && 1 !in ChildSubtree(left, right, left, node)
    decreases |Above(left, right, node)|, 1
  {
    if node in left {
      var c := left[node];
      AboveShrinks(left, right, node, c);
      CountedChild(left, right, card, node, c);
      var w := ChildWidth(width, card[c], card[node]);
      PlacedNodes(left, right, card, c, curpos - (width - w) / 2.0, w, depth);
      SubtreeAtLeast(left, right, c);
    }
  }

  lemma {:induction false} RightNodes(left: map<int, int>, right: map<int, int>, card: map<int, int>,
                                      node: int, curpos: real, width: real, depth: int)
    requires Ordered(left, right) && Counted(left, right, card, node) && node >= 1
    ensures RightPart(left, right, card, node, curpos, width, depth).Keys == ChildSubtree(left, right, right, node)
    ensures node !in ChildSubtree(left, right, right, node) && 1 !in ChildSubtree(left, right, right, node)
    decreases |Above(left, right, node)|, 1
  {
    if node in right {
      var c := right[node];
      AboveShrinks(left, right, node, c);
      CountedChild(left, right, card, node, c);
      var w := ChildWidth(width, card[c], card[node]);
      PlacedNodes(left, right, card, c, curpos + (width - w) / 2.0, w, depth);
      SubtreeAtLeast(left, right, c);
    }
  }

  lemma {:induction false} PlacedNodes(left: map<int, int>, right: map<int, int>, card: map<int, int>,
                                       child: int, x: real, w: real, depth: int)
    requires Ordered(left, right) && Counted(left, right, card, child) && child > 1
    ensures Placed(left, right, card, child, x, w, depth).Keys == Subtree(left, right, child)
    decreases |Above(left, right, child)|, 3
  {
    LayoutNodes(left, right, card, child, x, w, depth + 1);
  }

  /** The root keeps (0.5, 1): no node below it is numbered 1. */
  lemma RootAtTop(left: map<int, int>, right: map<int, int>, card: map<int, int>,
                  curpos: real, width: real, depth: int)
    requires Ordered(left, right) && Counted(left, right, card, 1)
    ensures Layout(left, right, card, 1, curpos, width, depth)[1] == (0.5, 1.0)
  {
    LeftNodes(left, right, card, 1, curpos, width, depth);
    RightNodes(left, right, card, 1, curpos, width, depth);
  }

  /** The position table after `setpos` from node, starting from the
      table m, written in the order `setpos` writes: the root, then the
      left child and its subtree, then the right child and its subtree. */
  function PlaceInto(left: map<int, int>, right: map<int, int>, card: map<int, int>, m: map<int, (real, real)>,
                     node: int, curpos: real, width: real, depth: int): map<int, (real, real)>
    requires Ordered(left, right) && Counted(left, right, card, node)
    decreases |Above(left, right, node)|, 2
  {
    PlaceRight(left, right, card, PlaceLeft(left, right, card, RootInto(m, node), node, curpos, width, depth),
               node, curpos, width, depth)
  }

  /** The table after `setpos` has placed the root, when node is the root. */
  function RootInto(m: map<int, (real, real)>, node: int): map<int, (real, real)>
  {
    if node == 1 then m[1 := (0.5, 1.0)] else m
  }

  function PlaceLeft(left: map<int, int>, right: map<int, int>, card: map<int, int>, m: map<int, (real, real)>,
                     node: int, curpos: real, width: real, depth: int): map<int, (real, real)>
    requires Ordered(left, right) && Counted(left, right, card, node)
    decreases |Above(left, right, node)|, 1
  {
    if node in left then
      var c := left[node];
      AboveShrinks(left, right, node, c);
      CountedChild(left, right, card, node, c);
      var w := ChildWidth(width, card[c], card[node]);
      var x := curpos - (width - w) / 2.0;
      PlaceInto(left, right, card, m[c := (x, -(depth as real))], c, x, w, depth + 1)
    else m
  }

  function PlaceRight(left: map<int, int>, right: map<int, int>, card: map<int, int>, m: map<int, (real, real)>,
                      node: int, curpos: real, width: real, depth: int): map<int, (real, real)>
    requires Ordered(left, right) && Counted(left, right, card, node)
    decreases |Above(left, right, node)|, 1
  {
    if node in right then
      var c := right[node];
      AboveShrinks(left, right, node, c);
      CountedChild(left, right, card, node, c);
      var w := ChildWidth(width, card[c], card[node]);
      var x := curpos + (width - w) / 2.0;
      PlaceInto(left, right, card, m[c := (x, -(depth as real))], c, x, w, depth + 1)
    else m
  }

  /** Placing into a table is laying out the subtree on its own and
      writing the layout over the table. */
  lemma {:induction false} PlaceIntoLayout(left: map<int, int>, right: map<int, int>, card: map<int, int>,
                                           m: map<int, (real, real)>, node: int, curpos: real, width: real, depth: int)
    requires Ordered(left, right) && Counted(left, right, card, node)
    ensures PlaceInto(left, right, card, m, node, curpos, width, depth) == m + Layout(left, right, card, node, curpos, width, depth)
    decreases |Above(left, right, node)|, 3
  {
    var root := Root(node);
    var lp := LeftPart(left, right, card, node, curpos, width, depth);
    var rp := RightPart(left, right, card, node, curpos, width, depth);
    var m0 := if node == 1 then m[1 := (0.5, 1.0)] else m;
    MapUpdatePlus(m, 1, (0.5, 1.0));
    assert m0 == m + root;
    PlaceLeftLayout(left, right, card, m0, node, curpos, width, depth);
    PlaceRightLayout(left, right, card, m0 + lp, node, curpos, width, depth);
    MapPlusAssoc(m, root, lp);
    MapPlusAssoc(m, root + lp, rp);
  }

  lemma {:induction false} PlaceLeftLayout(left: map<int, int>, right: map<int, int>, card: map<int, int>,
                                           m: map<int, (real, real)>, node: int, curpos: real, width: real, depth: int)
    requires Ordered(left, right) && Counted(left, right, card, node)
    ensures PlaceLeft(left, right, card, m, node, curpos, width, depth) == m + LeftPart(left, right, card, node, curpos, width, depth)
    decreases |Above(left, right, node)|, 2
  {
    if node in left {
      var c := left[node];
      AboveShrinks(left, right, node, c);
      CountedChild(left, right, card, node, c);
      var w := ChildWidth(width, card[c], card[node]);
      PlaceIntoPlaced(left, right, card, m, c, curpos - (width - w) / 2.0, w, depth);
    } else {
      assert m + map[] == m;
    }
  }

  lemma {:induction false} PlaceRightLayout(left: map<int, int>, right: map<int, int>, card: map<int, int>,
                                            m: map<int, (real, real)>, node: int, curpos: real, width: real, depth: int)
    requires Ordered(left, right) && Counted(left, right, card, node)
    ensures PlaceRight(left, right, card, m, node, curpos, width, depth) == m + RightPart(left, right, card, node, curpos, width, depth)
    decreases |Above(left, right, node)|, 2
  {
    if node in right {
      var c := right[node];
      AboveShrinks(left, right, node, c);
      CountedChild(left, right, card, node, c);
      var w := ChildWidth(width, card[c], card[node]);
      PlaceIntoPlaced(left, right, card, m, c, curpos + (width - w) / 2.0, w, depth);
    } else {
      assert m + map[] == m;
    }
  }

  /** One child's step of `setpos`: write the child's own position, then
      place its subtree. */
  lemma {:induction false} PlaceIntoPlaced(left: map<int, int>, right: map<int, int>, card: map<int, int>,
                                           m: map<int, (real, real)>, c: int, x: real, w: real, depth: int)
    requires Ordered(left, right) && Counted(left, right, card, c)
    ensures PlaceInto(left, right, card, m[c := (x, -(depth as real))], c, x, w, depth + 1)
         == m + Placed(left, right, card, c, x, w, depth)
    decreases |Above(left, right, c)|, 4
  {
    var own := map[c := (x, -(depth as real))];
    PlaceIntoLayout(left, right, card, m[c := (x, -(depth as real))], c, x, w, depth + 1);
    MapUpdatePlus(m, c, (x, -(depth as real)));
    MapPlusAssoc(m, own, Layout(left, right, card, c, x, w, depth + 1));
  }

  lemma SeqAssoc<T>(a: seq<T>, b: seq<T>, c: seq<T>, d: seq<T>)
    ensures a + b + c + d == a + (b + c + d)
  {
  }

  lemma MapPlusAssoc<K, V>(a: map<K, V>, b: map<K, V>, c: map<K, V>)
    ensures a + b + c == a + (b + c)
  {
  }

  lemma MapUpdatePlus<K, V>(a: map<K, V>, k: K, v: V)
    ensures a[k := v] == a + map[k := v]
  {
  }

  // ---------------------------------------------------------------
  // The global tables and the three procedures
  // ---------------------------------------------------------------

  /** The branch-and-bound tree as the callbacks record it: the left and
      right child of each node, the subtree sizes `postorder_count`
      writes, and (ghost) the order in which it finishes nodes. */
  class Tree {
    var left: map<int, int>
    var right: map<int, int>
    var card: map<int, int>
    ghost var finished: seq<int>

    constructor ()
      ensures left == map[] && right == map[] && card == map[] && finished == []
    {
      left, right, card := map[], map[], map[];
      finished := [];
    }

    /** `storeBBnode`: branch 0 records the new node as the parent's left
        child, any other branch as its right child; an earlier entry is
        replaced. */
    method StoreNode(parent: int, newnode: int, branch: int)
      modifies this`left, this`right
      ensures branch == 0 ==> left == old(left)[parent := newnode] && right == old(right)
      ensures branch != 0 ==> right == old(right)[parent := newnode] && left == old(left)
    {
      if branch == 0 {
        left := left[parent := newnode];
      } else {
        right := right[parent := newnode];
      }
    }

    /** `postorder_count`: count both subtrees, then the node. */
    method PostorderCount(node: int)
      requires Ordered(left, right)
      modifies this`card, this`finished
      ensures card == CountsInto(left, right, old(card), node)
      ensures finished == old(finished) + PostOrder(left, right, node)
      decreases |Above(left, right, node)|
    {
      ghost var pl: seq<int> := if node in left then PostOrder(left, right, left[node]) else [];
      ghost var pr: seq<int> := if node in right then PostOrder(left, right, right[node]) else [];
      assert PostOrder(left, right, node) == pl + pr + [node];
      var c := 0;
      if node in left {
        AboveShrinks(left, right, node, left[node]);
        PostorderCount(left[node]);
        c := c + card[left[node]];
      }
      assert finished == old(finished) + pl;
      if node in right {
        AboveShrinks(left, right, node, right[node]);
        PostorderCount(right[node]);
        c := c + card[right[node]];
      }
      assert finished == old(finished) + pl + pr;
      SeqAssoc(old(finished), pl, pr, [node]);
      card := card[node := 1 + c];
      finished := finished + [node];
    }
  }

  /** The drawing graph `T`: the position attribute of each node and the
      (undirected) edges added so far. */
  class Graph {
    var pos: map<int, (real, real)>
    var edges: set<(int, int)>

    constructor ()
      ensures pos == map[] && edges == {}
    {
      pos, edges := map[], {};
    }
  }

  /** `setpos`: place the root, then the left child and its subtree,
      then the right child and its subtree. */
  method SetPos(g: Graph, left: map<int, int>, right: map<int, int>, card: map<int, int>, node: int, curpos: real, width: real, depth: int)
    requires Ordered(left, right) && Counted(left, right, card, node)
    modifies g
    ensures g.pos == PlaceInto(left, right, card, old(g.pos), node, curpos, width, depth)
    ensures g.edges == old(g.edges) + Edges(left, right, node)
    decreases |Above(left, right, node)|, 2
  {
    if node == 1 {
      g.pos := g.pos[1 := (0.5, 1.0)];
    }
    assert g.pos == RootInto(old(g.pos), node);
    SetLeft(g, left, right, card, node, curpos, width, depth);
    SetRight(g, left, right, card, node, curpos, width, depth);
  }

  /** The left branch of `setpos`: the left child gets its share of the
      width, left of the parent's centre and one level below, then its
      subtree is placed. */
  method SetLeft(g: Graph, left: map<int, int>, right: map<int, int>, card: map<int, int>, node: int, curpos: real, width: real, depth: int)
    requires Ordered(left, right) && Counted(left, right, card, node)
    modifies g
    ensures g.pos == PlaceLeft(left, right, card, old(g.pos), node, curpos, width, depth)
    ensures g.edges == old(g.edges) + LeftEdges(left, right, node)
    decreases |Above(left, right, node)|, 1
  {
    if node in left {
      var l := left[node];
      AboveShrinks(left, right, node, l);
      CountedChild(left, right, card, node, l);
      var w := ChildWidth(width, card[l], card[node]);
      var x := curpos - (width - w) / 2.0;
      g.pos := g.pos[l := (x, -(depth as real))];
      g.edges := g.edges + {(node, l)};
      SetPos(g, left, right, card, l, x, w, depth + 1);
    }
  }

  /** The right branch of `setpos`, mirroring the left one. */
  method SetRight(g: Graph, left: map<int, int>, right: map<int, int>, card: map<int, int>, node: int, curpos: real, width: real, depth: int)
    requires Ordered(left, right) && Counted(left, right, card, node)
    modifies g
    ensures g.pos == PlaceRight(left, right, card, old(g.pos), node, curpos, width, depth)
    ensures g.edges == old(g.edges) + RightEdges(left, right, node)
    decreases |Above(left, right, node)|, 1
  {
    if node in right {
      var r := right[node];
      AboveShrinks(left, right, node, r);
      CountedChild(left, right, card, node, r);
      var w := ChildWidth(width, card[r], card[node]);
      var x := curpos + (width - w) / 2.0;
      g.pos := g.pos[r := (x, -(depth as real))];
      g.edges := g.edges + {(node, r)};
      SetPos(g, left, right, card, r, x, w, depth + 1);
    }
  }

  /** The script's drawing step: after the search has recorded the tree,
      count every subtree from the root, then place the whole tree in
      the unit-wide band below the root at (0.5, 1). */
  method DrawTree(t: Tree, g: Graph)
    requires Ordered(t.left, t.right)
    modifies t`card, t`finished, g
    ensures forall n :: n in Subtree(t.left, t.right, 1) ==> n in t.card && t.card[n] == Card(t.left, t.right, n)
    ensures g.pos.Keys == old(g.pos).Keys + Subtree(t.left, t.right, 1)
    ensures g.pos[1] == (0.5, 1.0)
    ensures forall n :: n in Subtree(t.left, t.right, 1) && n != 1 ==> 0.0 < g.pos[n].0 < 1.0 && g.pos[n].1 <= 0.0
    ensures g.edges == old(g.edges) + Edges(t.left, t.right, 1)
  {
    t.PostorderCount(1);
    var left, right, card := t.left, t.right, t.card;
    CountsTable(left, right, old(t.card), 1);
    CountedFromTable(left, right, card, 1);
    SetPos(g, left, right, card, 1, 0.5, 1.0, 0);
    PlaceIntoLayout(left, right, card, old(g.pos), 1, 0.5, 1.0, 0);
    DrawnTable(old(g.pos), left, right, card);
  }

  /** What laying out the whole tree from the root writes over a table. */
  lemma DrawnTable(m: map<int, (real, real)>, left: map<int, int>, right: map<int, int>, card: map<int, int>)
    requires Ordered(left, right) && Counted(left, right, card, 1)
    ensures var p := m + Layout(left, right, card, 1, 0.5, 1.0, 0);
      && p.Keys == m.Keys + Subtree(left, right, 1)
      && p[1] == (0.5, 1.0)
      && forall n :: n in Subtree(left, right, 1) && n != 1 ==> 0.0 < p[n].0 < 1.0 && p[n].1 <= 0.0
  {
    var lay := Layout(left, right, card, 1, 0.5, 1.0, 0);
    LayoutNodes(left, right, card, 1, 0.5, 1.0, 0);
    LayoutBand(left, right, card, 1, 0.5, 1.0, 0);
    RootAtTop(left, right, card, 0.5, 1.0, 0);
    assert forall n :: n in Subtree(left, right, 1) ==> n in lay;
  }
}
