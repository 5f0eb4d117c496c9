/**
 * Breadth-first search for the shortest chain of relations from the viewer to another user,
 * with a visited set (each node is queued at most once) and a hard cap of three hops.
 */
module FamilyPath {
  import opened Basics
  import opened FamilyGraph

  /** Paths longer than this are never explored. */
  const MaxDepth: nat := 3

  /** A node missing from the graph has no edges. */
  function Adjacent(graph: Graph, n: int): seq<Edge>
  {
    if n in graph then graph[n] else []
  }

  /** `nodes` are the people visited by following the edges named by `labels` from start to end. */
  ghost predicate IsWalk(graph: Graph, start: int, labels: seq<RelationType>, nodes: seq<int>, end: int)
  {
    && |nodes| == |labels| + 1
    && nodes[0] == start
    && nodes[|labels|] == end
    && forall i :: 0 <= i < |labels| ==> Edge(nodes[i + 1], labels[i]) in Adjacent(graph, nodes[i])
  }

  /** The label sequence `labels` can be followed along real edges from start to end. */
  ghost predicate HasWalk(graph: Graph, start: int, labels: seq<RelationType>, end: int)
  {
    exists nodes :: IsWalk(graph, start, labels, nodes, end)
  }

  /**
   * What the search promises: a found path follows real edges, has at most MaxDepth labels and no
   * shorter label sequence leads from start to end; no path means nothing within MaxDepth hops does.
   */
  ghost predicate IsShortestResult(graph: Graph, start: int, end: int, r: Option<seq<RelationType>>)
  {
    match r
    case Some(p) =>
      && |p| <= MaxDepth
      && HasWalk(graph, start, p, end)
      && forall labels :: |labels| < |p| ==> !HasWalk(graph, start, labels, end)
    case None =>
      forall labels :: |labels| <= MaxDepth ==> !HasWalk(graph, start, labels, end)
  }

  /** Following one more edge out of a walk's last node gives a walk one label longer. */
  lemma WalkExtend(graph: Graph, start: int, labels: seq<RelationType>, nodes: seq<int>, u: int, e: Edge)
    requires IsWalk(graph, start, labels, nodes, u) && e in Adjacent(graph, u)
    ensures IsWalk(graph, start, labels + [e.relation], nodes + [e.to], e.to)
  {
    var labels', nodes' := labels + [e.relation], nodes + [e.to];
    forall i | 0 <= i < |labels'|
      ensures Edge(nodes'[i + 1], labels'[i]) in Adjacent(graph, nodes'[i])
    {
      if i < |labels| {
        assert labels'[i] == labels[i] && nodes'[i] == nodes[i] && nodes'[i + 1] == nodes[i + 1];
      }
    }
  }

  /** One queue element of the search: a node and the labels of the path that reached it. */
  datatype QueueEntry = QueueEntry(node: int, path: seq<RelationType>)

  /** Every node the search could ever queue: the start and every edge target. */
  ghost function Universe(graph: Graph, start: int): set<int>
  {
    {start} + set n, e | n in graph && e in graph[n] :: e.to
  }

  /** The nodes waiting in the queue. */
  ghost function QueueNodes(queue: seq<QueueEntry>): set<int>
  {
    set i | 0 <= i < |queue| :: queue[i].node
  }

  /** Node v has been expanded: all its neighbours are visited, none recorded deeper than one more hop. */
  ghost predicate Expanded(graph: Graph, pathOf: map<int, seq<RelationType>>, v: int)
    requires v in pathOf
  {
    forall e :: e in Adjacent(graph, v) ==> e.to in pathOf && |pathOf[e.to]| <= |pathOf[v]| + 1
  }

  /**
   * The search invariant. `pathOf` records, for every visited node, the labels of the path it was
   * queued with, and `walkOf` the people along that path. The queue holds two levels: its first
   * `m` entries are at depth `front`, the rest at `front + 1`. Every dequeued node (in `done`) lies
   * at most at depth `front`, is not the target and, if within the depth cap, has been expanded;
   * every visited node not yet dequeued lies at depth `front` or deeper.
   */
  ghost predicate SearchInv(graph: Graph, start: int, end: int, pathOf: map<int, seq<RelationType>>,
                            walkOf: map<int, seq<int>>, done: set<int>, queue: seq<QueueEntry>, front: nat, m: nat)
  {
    && start in pathOf && pathOf[start] == []
    && pathOf.Keys <= walkOf.Keys
    && (forall v :: v in pathOf ==> IsWalk(graph, start, pathOf[v], walkOf[v], v) && |pathOf[v]| <= MaxDepth)
    && (forall i :: 0 <= i < |queue| ==> queue[i].node in pathOf && queue[i].path == pathOf[queue[i].node])
    && m <= |queue|
    && (forall i :: 0 <= i < m ==> |queue[i].path| == front)
    && (forall i :: m <= i < |queue| ==> |queue[i].path| == front + 1)
    && (forall v :: v in done ==> v in pathOf && |pathOf[v]| <= front && v != end)
    && (forall v :: v in pathOf && v !in done ==> front <= |pathOf[v]|)
    && (forall v :: v in done && |pathOf[v]| < MaxDepth ==> Expanded(graph, pathOf, v))
  }

  /**
   * Core of the minimality argument: if every dequeued node within the cap is expanded and every
   * visited node not yet dequeued lies at depth at least d, then the end of every walk of at most d
   * labels is visited with a recorded path no longer than that walk.
   */
  lemma {:induction false} VisitedWithinWalkLength(graph: Graph, start: int, pathOf: map<int, seq<RelationType>>, done: set<int>,
                                                   d: nat, labels: seq<RelationType>, nodes: seq<int>, w: int)
    requires start in pathOf && pathOf[start] == [] && d <= MaxDepth
    requires forall v :: v in pathOf && v !in done ==> d <= |pathOf[v]|
    requires forall v :: v in done ==> v in pathOf
    requires forall v :: v in done && |pathOf[v]| < MaxDepth ==> Expanded(graph, pathOf, v)
    requires IsWalk(graph, start, labels, nodes, w) && |labels| <= d
    ensures w in pathOf && |pathOf[w]| <= |labels|
    decreases |labels|
  {
    var n := |labels|;
    if n > 0 {
      var u := nodes[n - 1];
      assert IsWalk(graph, start, labels[..n - 1], nodes[..n], u);
      VisitedWithinWalkLength(graph, start, pathOf, done, d, labels[..n - 1], nodes[..n], u);
      assert u in done;
      assert Expanded(graph, pathOf, u);
      assert Edge(w, labels[n - 1]) in Adjacent(graph, u);
    }
  }

  lemma QueueNodesAppend(queue: seq<QueueEntry>, x: QueueEntry)
    ensures QueueNodes(queue + [x]) == QueueNodes(queue) + {x.node}
  {
    var q := queue + [x];
    assert forall i :: 0 <= i < |queue| ==> q[i] == queue[i];
    assert q[|queue|] == x;
  }

  lemma QueueNodesTail(queue: seq<QueueEntry>)
    requires queue != []
    ensures QueueNodes(queue) == {queue[0].node} + QueueNodes(queue[1..])
  {
    var t := queue[1..];
    assert forall i :: 0 <= i < |t| ==> t[i] == queue[i + 1];
    forall v | v in QueueNodes(queue)
      ensures v in {queue[0].node} + QueueNodes(t)
    {
      var i :| 0 <= i < |queue| && queue[i].node == v;
      if i > 0 {
        assert t[i - 1].node == v;
      }
    }
  }

  /**
   * Before the next dequeue: when the first level of the queue is used up, the front moves one
   * level deeper and the whole queue becomes the new first level.
   */
  lemma NextLevel(graph: Graph, start: int, end: int, pathOf: map<int, seq<RelationType>>, walkOf: map<int, seq<int>>,
                  done: set<int>, queue: seq<QueueEntry>, front: nat)
    requires SearchInv(graph, start, end, pathOf, walkOf, done, queue, front, 0)
    requires pathOf.Keys == done + QueueNodes(queue)
    ensures SearchInv(graph, start, end, pathOf, walkOf, done, queue, front + 1, |queue|)
  {
    forall v | v in pathOf && v !in done
      ensures front + 1 <= |pathOf[v]|
    {
      var i :| 0 <= i < |queue| && queue[i].node == v;
    }
  }

  /** Dequeuing an entry that is not the target keeps the invariant, with that entry pending expansion. */
  lemma Dequeue(graph: Graph, start: int, end: int, pathOf: map<int, seq<RelationType>>, walkOf: map<int, seq<int>>,
                done: set<int>, queue: seq<QueueEntry>, front: nat, m: nat)
    requires SearchInv(graph, start, end, pathOf, walkOf, done, queue, front, m)
    requires 0 < m && queue[0].node != end
    ensures SearchInv(graph, start, end, pathOf, walkOf, done, queue[1..], front, m - 1)
  {
    var t := queue[1..];
    assert forall i :: 0 <= i < |t| ==> t[i] == queue[i + 1];
  }

  /** Once the dequeued entry's neighbours are all visited, it joins the done set. */
  lemma FinishExpansion(graph: Graph, start: int, end: int, pathOf: map<int, seq<RelationType>>, walkOf: map<int, seq<int>>,
                        done: set<int>, queue: seq<QueueEntry>, front: nat, m: nat, cur: QueueEntry)
    requires SearchInv(graph, start, end, pathOf, walkOf, done, queue, front, m)
    requires cur.node in pathOf && pathOf[cur.node] == cur.path && |cur.path| == front && cur.node != end
    requires |cur.path| < MaxDepth ==> Expanded(graph, pathOf, cur.node)
    ensures SearchInv(graph, start, end, pathOf, walkOf, done + {cur.node}, queue, front, m)
  {
  }

  /** Visiting a new node one level below the front and queuing it keeps the invariant. */
  lemma QueueNewNode(graph: Graph, start: int, end: int, pathOf: map<int, seq<RelationType>>, walkOf: map<int, seq<int>>,
                     done: set<int>, queue: seq<QueueEntry>, front: nat, m: nat, x: QueueEntry, w: seq<int>)
    requires SearchInv(graph, start, end, pathOf, walkOf, done, queue, front, m)
    requires x.node !in pathOf && |x.path| == front + 1 <= MaxDepth
    requires IsWalk(graph, start, x.path, w, x.node)
    ensures SearchInv(graph, start, end, pathOf[x.node := x.path], walkOf[x.node := w], done, queue + [x], front, m)
  {
    var pathOf', queue' := pathOf[x.node := x.path], queue + [x];
    forall v | v in done && |pathOf'[v]| < MaxDepth
      ensures Expanded(graph, pathOf', v)
    {
      assert Expanded(graph, pathOf, v);
    }
    assert forall i :: 0 <= i < |queue| ==> queue'[i] == queue[i];
  }

  /**
   * When the target is dequeued, no shorter label sequence reaches it: every visited node shallower
   * than the front has been expanded, so a shorter walk would have recorded a shorter path to it.
   */
  lemma FoundIsShortest(graph: Graph, start: int, end: int, pathOf: map<int, seq<RelationType>>, walkOf: map<int, seq<int>>,
                        done: set<int>, queue: seq<QueueEntry>, front: nat, m: nat)
    requires SearchInv(graph, start, end, pathOf, walkOf, done, queue, front, m)
    requires 0 < m && queue[0].node == end
    ensures IsShortestResult(graph, start, end, Some(queue[0].path))
  {
    var p := queue[0].path;
    assert IsWalk(graph, start, p, walkOf[end], end);
    forall labels | |labels| < |p|
      ensures !HasWalk(graph, start, labels, end)
    {
      if nodes :| IsWalk(graph, start, labels, nodes, end) {
        VisitedWithinWalkLength(graph, start, pathOf, done, front, labels, nodes, end);
      }
    }
  }

  /** When the queue runs dry, every visited node is done, so nothing within MaxDepth hops is the target. */
  lemma ExhaustedIsUnreachable(graph: Graph, start: int, end: int, pathOf: map<int, seq<RelationType>>, walkOf: map<int, seq<int>>,
                               done: set<int>, front: nat)
    requires SearchInv(graph, start, end, pathOf, walkOf, done, [], front, 0)
    requires pathOf.Keys == done
    ensures IsShortestResult(graph, start, end, None)
  {
    forall labels | |labels| <= MaxDepth
      ensures !HasWalk(graph, start, labels, end)
    {
      if nodes :| IsWalk(graph, start, labels, nodes, end) {
        VisitedWithinWalkLength(graph, start, pathOf, done, MaxDepth, labels, nodes, end);
      }
    }
  }

  /**
   * The queue and visited set of the search between two dequeues: some record of paths, witnesses,
   * dequeued nodes and front level satisfies the search invariant for them.
   */
  ghost predicate Frontier(graph: Graph, start: int, end: int, queue: seq<QueueEntry>, visited: set<int>)
  {
    exists pathOf, walkOf, done, front, m :: Between(graph, start, end, pathOf, walkOf, done, queue, front, m, visited)
  }

  ghost predicate Between(graph: Graph, start: int, end: int, pathOf: map<int, seq<RelationType>>, walkOf: map<int, seq<int>>,
                          done: set<int>, queue: seq<QueueEntry>, front: nat, m: nat, visited: set<int>)
  {
    SearchInv(graph, start, end, pathOf, walkOf, done, queue, front, m) && visited == pathOf.Keys == done + QueueNodes(queue)
  }

  /**
   * The state while the dequeued `entry` is expanded: its first k edges have been handled, and some
   * record satisfies the search invariant with `entry` visited but neither waiting nor done.
   */
  ghost predicate Expanding(graph: Graph, start: int, end: int, entry: QueueEntry, queue: seq<QueueEntry>, visited: set<int>, k: nat)
  {
    exists pathOf, walkOf, done, front, m :: During(graph, start, end, entry, pathOf, walkOf, done, queue, front, m, visited, k)
  }

  ghost predicate During(graph: Graph, start: int, end: int, entry: QueueEntry, pathOf: map<int, seq<RelationType>>,
                         walkOf: map<int, seq<int>>, done: set<int>, queue: seq<QueueEntry>, front: nat, m: nat,
                         visited: set<int>, k: nat)
  {
    SearchInv(graph, start, end, pathOf, walkOf, done, queue, front, m)
      && Pending(graph, end, entry, pathOf, done, queue, front, visited, k)
  }

  /** The expansion-specific part of the state: `entry` is visited at the front, and its first k neighbours are visited. */
  ghost predicate Pending(graph: Graph, end: int, entry: QueueEntry, pathOf: map<int, seq<RelationType>>, done: set<int>,
                          queue: seq<QueueEntry>, front: nat, visited: set<int>, k: nat)
  {
    && visited == pathOf.Keys == done + {entry.node} + QueueNodes(queue)
    && entry.node in pathOf && pathOf[entry.node] == entry.path && |entry.path| == front < MaxDepth && entry.node != end
    && k <= |Adjacent(graph, entry.node)|
    && forall j :: 0 <= j < k ==> Adjacent(graph, entry.node)[j].to in pathOf
                                   && |pathOf[Adjacent(graph, entry.node)[j].to]| <= front + 1
  }

  lemma PendingAfterVisit(graph: Graph, end: int, entry: QueueEntry, pathOf: map<int, seq<RelationType>>, done: set<int>,
                          queue: seq<QueueEntry>, front: nat, visited: set<int>, k: nat)
    requires Pending(graph, end, entry, pathOf, done, queue, front, visited, k) && k < |Adjacent(graph, entry.node)|
    requires Adjacent(graph, entry.node)[k].to !in visited
    ensures var e := Adjacent(graph, entry.node)[k];
            var next := QueueEntry(e.to, entry.path + [e.relation]);
            Pending(graph, end, entry, pathOf[e.to := next.path], done, queue + [next], front, visited + {e.to}, k + 1)
  {
    var e := Adjacent(graph, entry.node)[k];
    QueueNodesAppend(queue, QueueEntry(e.to, entry.path + [e.relation]));
  }

  lemma StartSearch(graph: Graph, start: int, end: int)
    ensures Frontier(graph, start, end, [QueueEntry(start, [])], {start})
  {
    var queue := [QueueEntry(start, [])];
    assert queue[0].node == start;
    assert QueueNodes(queue) == {start};
    assert IsWalk(graph, start, [], [start], start);
    assert Between(graph, start, end, map[start := []], map[start := [start]], {}, queue, 0, 1, {start});
  }

  /** Picks a record for a frontier whose first level is not used up, moving a level deeper if need be. */
  lemma OpenLevel(graph: Graph, start: int, end: int, queue: seq<QueueEntry>, visited: set<int>)
    returns (pathOf: map<int, seq<RelationType>>, walkOf: map<int, seq<int>>, done: set<int>, front: nat, m: nat)
    requires Frontier(graph, start, end, queue, visited) && queue != []
    ensures Between(graph, start, end, pathOf, walkOf, done, queue, front, m, visited) && 0 < m
  {
    pathOf, walkOf, done, front, m :| Between(graph, start, end, pathOf, walkOf, done, queue, front, m, visited);
    if m == 0 {
      NextLevel(graph, start, end, pathOf, walkOf, done, queue, front);
      front, m := front + 1, |queue|;
    }
  }

  /** Dequeuing the target: its recorded path is a shortest one. */
  lemma FoundTarget(graph: Graph, start: int, end: int, queue: seq<QueueEntry>, visited: set<int>)
    requires Frontier(graph, start, end, queue, visited) && queue != [] && queue[0].node == end
    ensures IsShortestResult(graph, start, end, Some(queue[0].path))
  {
    var pathOf, walkOf, done, front, m := OpenLevel(graph, start, end, queue, visited);
    FoundIsShortest(graph, start, end, pathOf, walkOf, done, queue, front, m);
  }

  /** Dequeuing an entry at the depth cap: it is dropped without looking at its edges. */
  lemma SkipCapped(graph: Graph, start: int, end: int, queue: seq<QueueEntry>, visited: set<int>)
    requires Frontier(graph, start, end, queue, visited) && queue != [] && queue[0].node != end
    requires MaxDepth <= |queue[0].path|
    ensures Frontier(graph, start, end, queue[1..], visited)
  {
    var pathOf, walkOf, done, front, m := OpenLevel(graph, start, end, queue, visited);
    QueueNodesTail(queue);
    Dequeue(graph, start, end, pathOf, walkOf, done, queue, front, m);
    FinishExpansion(graph, start, end, pathOf, walkOf, done, queue[1..], front, m - 1, queue[0]);
    assert Between(graph, start, end, pathOf, walkOf, done + {queue[0].node}, queue[1..], front, m - 1, visited);
  }

  /** Dequeuing an entry below the depth cap: its expansion starts. */
  lemma BeginExpansion(graph: Graph, start: int, end: int, queue: seq<QueueEntry>, visited: set<int>)
    requires Frontier(graph, start, end, queue, visited) && queue != [] && queue[0].node != end
    requires |queue[0].path| < MaxDepth
    ensures Expanding(graph, start, end, queue[0], queue[1..], visited, 0)
  {
    var pathOf, walkOf, done, front, m := OpenLevel(graph, start, end, queue, visited);
    QueueNodesTail(queue);
    Dequeue(graph, start, end, pathOf, walkOf, done, queue, front, m);
    assert During(graph, start, end, queue[0], pathOf, walkOf, done, queue[1..], front, m - 1, visited, 0);
  }

  /** An edge to an already visited node changes nothing. */
  lemma SkipVisited(graph: Graph, start: int, end: int, entry: QueueEntry, queue: seq<QueueEntry>, visited: set<int>, k: nat)
    requires Expanding(graph, start, end, entry, queue, visited, k) && k < |Adjacent(graph, entry.node)|
    requires Adjacent(graph, entry.node)[k].to in visited
    ensures Expanding(graph, start, end, entry, queue, visited, k + 1)
  {
    var pathOf, walkOf, done, front, m :| During(graph, start, end, entry, pathOf, walkOf, done, queue, front, m, visited, k);
    PendingAfterSkip(graph, start, end, entry, pathOf, walkOf, done, queue, front, m, visited, k);
    PackDuring(graph, start, end, entry, pathOf, walkOf, done, queue, front, m, visited, k + 1);
  }

  lemma PendingAfterSkip(graph: Graph, start: int, end: int, entry: QueueEntry, pathOf: map<int, seq<RelationType>>,
                         walkOf: map<int, seq<int>>, done: set<int>, queue: seq<QueueEntry>, front: nat, m: nat,
                         visited: set<int>, k: nat)
    requires SearchInv(graph, start, end, pathOf, walkOf, done, queue, front, m)
    requires Pending(graph, end, entry, pathOf, done, queue, front, visited, k) && k < |Adjacent(graph, entry.node)|
    requires Adjacent(graph, entry.node)[k].to in visited
    ensures Pending(graph, end, entry, pathOf, done, queue, front, visited, k + 1)
  {
    var e := Adjacent(graph, entry.node)[k];
    if e.to !in done && e.to != entry.node {
      assert e.to in QueueNodes(queue);
      var q :| 0 <= q < |queue| && queue[q].node == e.to;
    }
  }

  /** An edge to a new node marks it visited and queues it one hop deeper. */
  lemma VisitNew(graph: Graph, start: int, end: int, entry: QueueEntry, queue: seq<QueueEntry>, visited: set<int>, k: nat)
    requires Expanding(graph, start, end, entry, queue, visited, k) && k < |Adjacent(graph, entry.node)|
    requires Adjacent(graph, entry.node)[k].to !in visited
    ensures var e := Adjacent(graph, entry.node)[k];
            Expanding(graph, start, end, entry, queue + [QueueEntry(e.to, entry.path + [e.relation])], visited + {e.to}, k + 1)
  {
    var pathOf, walkOf, done, front, m :| During(graph, start, end, entry, pathOf, walkOf, done, queue, front, m, visited, k);
    var e := Adjacent(graph, entry.node)[k];
    var next := QueueEntry(e.to, entry.path + [e.relation]);
    var walk := walkOf[entry.node] + [e.to];
    VisitNewRecord(graph, start, end, entry, pathOf, walkOf, done, queue, front, m, visited, k);
    PackDuring(graph, start, end, entry, pathOf[e.to := next.path], walkOf[e.to := walk], done, queue + [next], front, m, visited + {e.to}, k + 1);
  }

  lemma VisitNewRecord(graph: Graph, start: int, end: int, entry: QueueEntry, pathOf: map<int, seq<RelationType>>,
                       walkOf: map<int, seq<int>>, done: set<int>, queue: seq<QueueEntry>, front: nat, m: nat,
                       visited: set<int>, k: nat)
    requires During(graph, start, end, entry, pathOf, walkOf, done, queue, front, m, visited, k) && k < |Adjacent(graph, entry.node)|
    requires Adjacent(graph, entry.node)[k].to !in visited
    ensures var e := Adjacent(graph, entry.node)[k];
            var next := QueueEntry(e.to, entry.path + [e.relation]);
            During(graph, start, end, entry, pathOf[e.to := next.path], walkOf[e.to := walkOf[entry.node] + [e.to]],
                   done, queue + [next], front, m, visited + {e.to}, k + 1)
  {
    var e := Adjacent(graph, entry.node)[k];
    var next := QueueEntry(e.to, entry.path + [e.relation]);
    WalkExtend(graph, start, entry.path, walkOf[entry.node], entry.node, e);
    QueueNewNode(graph, start, end, pathOf, walkOf, done, queue, front, m, next, walkOf[entry.node] + [e.to]);
    PendingAfterVisit(graph, end, entry, pathOf, done, queue, front, visited, k);
  }

  lemma PackDuring(graph: Graph, start: int, end: int, entry: QueueEntry, pathOf: map<int, seq<RelationType>>,
                   walkOf: map<int, seq<int>>, done: set<int>, queue: seq<QueueEntry>, front: nat, m: nat,
                   visited: set<int>, k: nat)
    requires During(graph, start, end, entry, pathOf, walkOf, done, queue, front, m, visited, k)
    ensures Expanding(graph, start, end, entry, queue, visited, k)
  {
  }

  /** With every edge handled, the entry is done. */
  lemma EndExpansion(graph: Graph, start: int, end: int, entry: QueueEntry, queue: seq<QueueEntry>, visited: set<int>)
    requires Expanding(graph, start, end, entry, queue, visited, |Adjacent(graph, entry.node)|)
    ensures Frontier(graph, start, end, queue, visited)
  {
    var pathOf, walkOf, done, front, m :|
      During(graph, start, end, entry, pathOf, walkOf, done, queue, front, m, visited, |Adjacent(graph, entry.node)|);
    FinishExpansion(graph, start, end, pathOf, walkOf, done, queue, front, m, entry);
    assert Between(graph, start, end, pathOf, walkOf, done + {entry.node}, queue, front, m, visited);
  }

  /** An empty queue: nothing within MaxDepth hops is the target. */
  lemma NotFound(graph: Graph, start: int, end: int, visited: set<int>)
    requires Frontier(graph, start, end, [], visited)
    ensures IsShortestResult(graph, start, end, None)
  {
    var pathOf, walkOf, done, front, m :| Between(graph, start, end, pathOf, walkOf, done, [], front, m, visited);
    ExhaustedIsUnreachable(graph, start, end, pathOf, walkOf, done, front);
  }

  lemma InUniverse(graph: Graph, start: int, n: int, e: Edge)
    requires e in Adjacent(graph, n)
    ensures e.to in Universe(graph, start)
  {
    assert n in graph && e in graph[n];
  }

  /** Marking more nodes visited leaves fewer unvisited ones: the search's termination measure. */
  lemma FewerUnvisited(u: set<int>, a: set<int>, b: set<int>)
    requires a <= b <= u && a != b
    ensures |u - b| < |u - a|
  {
    assert (u - a) == (u - b) + (b - a);
    assert (u - b) * (b - a) == {};
    assert b - a != {};
  }

  /** Breadth-first search over `graph` from start to end, giving up beyond MaxDepth hops. */
  method FindShortestPath(graph: Graph, start: int, end: int) returns (r: Option<seq<RelationType>>)
    ensures IsShortestResult(graph, start, end, r)
  {
    var queue := [QueueEntry(start, [])];
    var visited := {start};
    ghost var universe := Universe(graph, start);
    StartSearch(graph, start, end);
    while |queue| > 0
      invariant Frontier(graph, start, end, queue, visited) && visited <= universe
      decreases |universe - visited|, |queue|
    {
      var entry := queue[0];
      if entry.node == end {
        FoundTarget(graph, start, end, queue, visited);
        return Some(entry.path);
      }
      if |entry.path| >= MaxDepth {
        SkipCapped(graph, start, end, queue, visited);
        queue := queue[1..];
        continue;
      }
      BeginExpansion(graph, start, end, queue, visited);
      queue := queue[1..];
      ghost var visited0, queue0 := visited, queue;
      var edges := Adjacent(graph, entry.node);
      for k := 0 to |edges|
        invariant Expanding(graph, start, end, entry, queue, visited, k)
        invariant visited0 <= visited <= universe
        invariant visited == visited0 ==> |queue| == |queue0|
      {
        var e := edges[k];
        if e.to !in visited {
          VisitNew(graph, start, end, entry, queue, visited, k);
          InUniverse(graph, start, entry.node, e);
          visited := visited + {e.to};
          queue := queue + [QueueEntry(e.to, entry.path + [e.relation])];
        } else {
          SkipVisited(graph, start, end, entry, queue, visited, k);
        }
      }
      EndExpansion(graph, start, end, entry, queue, visited);
      if visited != visited0 {
        FewerUnvisited(universe, visited0, visited);
      }
    }
    NotFound(graph, start, end, visited);
    return None;
  }
}
