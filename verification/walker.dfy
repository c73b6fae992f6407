/** The hierarchy walker (`MyWalker.queue_children`) and the traversal
    that drives it.

    Only `queue_children` is part of the program modelled here. The loop
    that pops containers and calls it lives in the walker base class, which
    is not part of this model; `Walk` states the assumed driver: pop one
    container (from the back when depth-first, from the front otherwise),
    enqueue its children, yield it, repeat until the deque is empty. */
module Walker {
  import opened Containers

  /** A container as `queue_children` sees it after `reload()`: its
      `files` and `analyses` attributes (possibly `None`) and the child
      lists that `subjects()`, `sessions()` and `acquisitions()` return. */
  datatype Node = Node(
    kind: Kind,
    files: Listing,
    analyses: Listing,
    subjects: seq<Node>,
    sessions: seq<Node>,
    acquisitions: seq<Node>)

  /** An attribute that holds a list or `None`. */
  datatype Listing = Missing | Listed(items: seq<Node>)

  /** `listing or []`. */
  function Items(l: Listing): seq<Node> {
    match l
    case Missing => []
    case Listed(xs) => xs
  }

  /** Whether the walker looks below a node at all. */
  predicate HasChildren(kind: Kind) {
    kind != File && kind != Analysis
  }

  /** The next-level containers of a node: project to subjects, subject to
      sessions, session to acquisitions, nothing for any other kind. */
  function ChildContainers(e: Node): seq<Node> {
    match e.kind
    case Project => e.subjects
    case Subject => e.sessions
    case Session => e.acquisitions
    case _ => []
  }

  /** `queue_children`: the deque after the element's children have been
      appended. */
  function QueueChildren(deque: seq<Node>, e: Node): (r: seq<Node>)
    // files and analyses have no children: the deque is unchanged
    ensures !HasChildren(e.kind) ==> r == deque
    // existing contents are untouched; new items only go at the end
    ensures |deque| <= |r| && r[..|deque|] == deque
    // appended: files, then analyses, then the next level down
    ensures HasChildren(e.kind) ==>
      var files, analyses := Items(e.files), Items(e.analyses);
      && |r| == |deque| + |files| + |analyses| + |ChildContainers(e)|
      && r[|deque|..|deque| + |files|] == files
      && r[|deque| + |files|..|deque| + |files| + |analyses|] == analyses
      && r[|deque| + |files| + |analyses|..] == ChildContainers(e)
    // an acquisition (or any kind without a child call) adds files and analyses only
    ensures e.kind == Acquisition || e.kind == OtherKind ==> r == deque + Items(e.files) + Items(e.analyses)
  {
    if !HasChildren(e.kind) then deque
    else
      var r := deque + Items(e.files) + Items(e.analyses) + ChildContainers(e);
      assert r[..|deque|] == deque;
      r
  }

  // ------------------------------------------------------------ sizes

  function Size(t: Node): nat
    decreases t, 1
  {
    1 + ListingSize(t.files) + ListingSize(t.analyses)
      + SizeAll(t.subjects) + SizeAll(t.sessions) + SizeAll(t.acquisitions)
  }

  function ListingSize(l: Listing): nat
    decreases l
  {
    match l
    case Missing => 0
    case Listed(xs) => SizeAll(xs)
  }

  function SizeAll(ts: seq<Node>): nat
    decreases ts
  {
    if ts == [] then 0 else Size(ts[0]) + SizeAll(ts[1..])
  }

  lemma {:induction false} LemmaSizeAllAppend(a: seq<Node>, b: seq<Node>)
    ensures SizeAll(a + b) == SizeAll(a) + SizeAll(b)
    decreases |a|
  {
    if a == [] {
      assert a + b == b;
    } else {
      assert (a + b)[0] == a[0];
      assert (a + b)[1..] == a[1..] + b;
      LemmaSizeAllAppend(a[1..], b);
    }
  }

  /** What a node enqueues is strictly smaller than the node. */
  lemma LemmaChildrenSmaller(e: Node)
    ensures SizeAll(QueueChildren([], e)) < Size(e)
  {
    if HasChildren(e.kind) {
      var files, analyses := Items(e.files), Items(e.analyses);
      LemmaQueueFresh(e);
      LemmaSizeAllAppend(files + analyses, ChildContainers(e));
      LemmaSizeAllAppend(files, analyses);
      assert SizeAll(files) == ListingSize(e.files);
      assert SizeAll(analyses) == ListingSize(e.analyses);
    }
  }

  // ------------------------------------------------------------ driver

  /** The container the driver takes next: the back of the deque when
      depth-first, the front otherwise. */
  function Popped(deque: seq<Node>, depthFirst: bool): Node
    requires deque != []
  {
    if depthFirst then deque[|deque| - 1] else deque[0]
  }

  /** The deque once `Popped` has been taken off. */
  function Remaining(deque: seq<Node>, depthFirst: bool): (rest: seq<Node>)
    requires deque != []
    ensures depthFirst ==> deque == rest + [Popped(deque, depthFirst)]
    ensures !depthFirst ==> deque == [Popped(deque, depthFirst)] + rest
  {
    if depthFirst then deque[..|deque| - 1] else deque[1..]
  }

  /** The traversal the walker base class is assumed to perform. */
  function Walk(deque: seq<Node>, depthFirst: bool): seq<Node>
    decreases SizeAll(deque)
  {
    if deque == [] then []
    else
      var e := Popped(deque, depthFirst);
      var rest := Remaining(deque, depthFirst);
      LemmaPopSize(deque, depthFirst);
      LemmaEnqueueSize(rest, e);
      [e] + Walk(QueueChildren(rest, e), depthFirst)
  }

  lemma LemmaPopSize(deque: seq<Node>, depthFirst: bool)
    requires deque != []
    ensures SizeAll(deque) == SizeAll(Remaining(deque, depthFirst)) + Size(Popped(deque, depthFirst))
  {
    var e, rest := Popped(deque, depthFirst), Remaining(deque, depthFirst);
    assert [e][1..] == [];
    if depthFirst {
      LemmaSizeAllAppend(rest, [e]);
    } else {
      LemmaSizeAllAppend([e], rest);
    }
  }

  /** Enqueuing onto a deque appends what enqueuing onto an empty one gives. */
  lemma LemmaQueueOnto(deque: seq<Node>, e: Node)
    ensures QueueChildren(deque, e) == deque + QueueChildren([], e)
  {
    if HasChildren(e.kind) {
      LemmaQueueFresh(e);
    }
  }

  lemma LemmaEnqueueSize(rest: seq<Node>, e: Node)
    ensures SizeAll(QueueChildren(rest, e)) < SizeAll(rest) + Size(e)
  {
    var kids := QueueChildren([], e);
    LemmaQueueOnto(rest, e);
    LemmaSizeAllAppend(rest, kids);
    LemmaChildrenSmaller(e);
  }

  // ------------------------------------------------------------ coverage

  /** The nodes the walker is responsible for below (and including) `t`:
      the node itself and, unless it is a file or an analysis, everything
      under its files, analyses and next-level containers. */
  function Reach(t: Node): multiset<Node>
    decreases t, 1
  {
    multiset{t} +
    if !HasChildren(t.kind) then multiset{}
    else
      ReachListing(t.files) + ReachListing(t.analyses) +
      match t.kind
      case Project => ReachAll(t.subjects)
      case Subject => ReachAll(t.sessions)
      case Session => ReachAll(t.acquisitions)
      case _ => multiset{}
  }

  function ReachListing(l: Listing): multiset<Node>
    decreases l
  {
    match l
    case Missing => multiset{}
    case Listed(xs) => ReachAll(xs)
  }

  function ReachAll(ts: seq<Node>): multiset<Node>
    decreases ts
  {
    if ts == [] then multiset{} else Reach(ts[0]) + ReachAll(ts[1..])
  }

  lemma {:induction false} LemmaReachAllAppend(a: seq<Node>, b: seq<Node>)
    ensures ReachAll(a + b) == ReachAll(a) + ReachAll(b)
    decreases |a|
  {
    if a == [] {
      assert a + b == b;
    } else {
      assert (a + b)[0] == a[0];
      assert (a + b)[1..] == a[1..] + b;
      LemmaReachAllAppend(a[1..], b);
    }
  }

  /** A node's subtree is the node plus the subtrees of what it enqueues. */
  /** What a node enqueues onto an empty deque. */
  lemma LemmaQueueFresh(e: Node)
    requires HasChildren(e.kind)
    ensures QueueChildren([], e) == Items(e.files) + Items(e.analyses) + ChildContainers(e)
  {
    assert [] + Items(e.files) + Items(e.analyses) + ChildContainers(e)
      == Items(e.files) + Items(e.analyses) + ChildContainers(e);
  }

  lemma LemmaReachItems(l: Listing)
    ensures ReachAll(Items(l)) == ReachListing(l)
  {
  }

  /** The subtree of a node that has children, part by part. */
  lemma LemmaReachParts(e: Node)
    requires HasChildren(e.kind)
    ensures Reach(e) == multiset{e} + ReachListing(e.files) + ReachListing(e.analyses) + ReachAll(ChildContainers(e))
  {
  }

  lemma LemmaReachUnfold(e: Node)
    ensures Reach(e) == multiset{e} + ReachAll(QueueChildren([], e))
  {
    if HasChildren(e.kind) {
      var files, analyses := Items(e.files), Items(e.analyses);
      LemmaQueueFresh(e);
      LemmaReachAllAppend(files + analyses, ChildContainers(e));
      LemmaReachAllAppend(files, analyses);
      LemmaReachItems(e.files);
      LemmaReachItems(e.analyses);
      LemmaReachParts(e);
    }
  }

  /** Taking one node off a deque splits its coverage into that node's
      subtree and the rest. */
  lemma LemmaReachPop(deque: seq<Node>, depthFirst: bool)
    requires deque != []
    ensures ReachAll(deque) == Reach(Popped(deque, depthFirst)) + ReachAll(Remaining(deque, depthFirst))
  {
    var e, rest := Popped(deque, depthFirst), Remaining(deque, depthFirst);
    assert [e][1..] == [];
    assert ReachAll([e]) == Reach(e);
    if depthFirst {
      LemmaReachAllAppend(rest, [e]);
    } else {
      LemmaReachAllAppend([e], rest);
    }
  }

  lemma LemmaWalkStep(deque: seq<Node>, depthFirst: bool)
    requires deque != []
    ensures var e := Popped(deque, depthFirst);
      multiset(Walk(deque, depthFirst))
        == multiset{e} + multiset(Walk(QueueChildren(Remaining(deque, depthFirst), e), depthFirst))
  {
  }

  /** The subtrees of the deque after a step, plus the popped node, are the
      subtrees of the deque before it. */
  lemma LemmaReachStep(deque: seq<Node>, depthFirst: bool)
    requires deque != []
    ensures var e := Popped(deque, depthFirst);
      multiset{e} + ReachAll(QueueChildren(Remaining(deque, depthFirst), e)) == ReachAll(deque)
  {
    var e, rest := Popped(deque, depthFirst), Remaining(deque, depthFirst);
    var kids := QueueChildren([], e);
    LemmaQueueOnto(rest, e);
    LemmaReachAllAppend(rest, kids);
    LemmaReachUnfold(e);
    LemmaReachPop(deque, depthFirst);
  }

  /** Walking a deque yields every node below its entries, each as often as
      it occurs there: nothing is missed and nothing is visited twice. This
      holds for both pop orders. */
  lemma {:induction false} LemmaWalkCoversExactlyOnce(deque: seq<Node>, depthFirst: bool)
    ensures multiset(Walk(deque, depthFirst)) == ReachAll(deque)
    decreases SizeAll(deque)
  {
    if deque != [] {
      var e, rest := Popped(deque, depthFirst), Remaining(deque, depthFirst);
      var next := QueueChildren(rest, e);
      LemmaPopSize(deque, depthFirst);
      LemmaEnqueueSize(rest, e);
      LemmaWalkCoversExactlyOnce(next, depthFirst);
      LemmaWalkStep(deque, depthFirst);
      LemmaReachStep(deque, depthFirst);
    }
  }

  /** Walking from a file or an analysis yields just that node. */
  lemma LemmaLeafWalk(e: Node, depthFirst: bool)
    requires !HasChildren(e.kind)
    ensures Walk([e], depthFirst) == [e]
  {
    assert [e][..0] == [] && [e][1..] == [];
  }
}
