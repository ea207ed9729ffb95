/** The traversal half of the BSP renderer: finding the leaf the camera is
    in, and the front-to-back walk of the tree that decides which faces
    are drawn, in what order.  Drawing one face is a callback; here the
    walk yields the sequence of face indices it hands to that callback. */
module BspRendering {
  import opened Wrappers
  import opened BspDefs
  import opened BspLumps
  import opened BspVis
  import opened BspLoading

  /** A point in map space. */
  datatype Vector = Vector(x: real, y: real, z: real)

  function Coord(v: Vector, k: nat): real
    requires k < 3
  {
    if k == 0 then v.x else if k == 1 then v.y else v.z
  }

  // ---------------------------------------------------------------------
  // Locating a point

  /** PointInBox: inside min..max on the three axes, or inside max..min on
      the three axes. */
  function PointInBox(p: Vector, mins: Short3, maxs: Short3): (r: bool)
    ensures r <==>
      (forall k :: 0 <= k < 3 ==> mins[k] as real <= Coord(p, k) <= maxs[k] as real)
      || (forall k :: 0 <= k < 3 ==> maxs[k] as real <= Coord(p, k) <= mins[k] as real)
  {
    (mins[0] as real <= p.x && p.x <= maxs[0] as real
     && mins[1] as real <= p.y && p.y <= maxs[1] as real
     && mins[2] as real <= p.z && p.z <= maxs[2] as real)
    || (mins[0] as real >= p.x && p.x >= maxs[0] as real
        && mins[1] as real >= p.y && p.y >= maxs[1] as real
        && mins[2] as real >= p.z && p.z >= maxs[2] as real)
  }

  /** The orientation is chosen once for all three axes: a point that is
      above min on one axis and below it on another is not in the box. */
  lemma PointInBoxUnmixed(p: Vector, mins: Short3, maxs: Short3)
    requires mins[0] as real < p.x <= maxs[0] as real
    requires maxs[1] as real <= p.y < mins[1] as real
    ensures !PointInBox(p, mins, maxs)
  {
  }

  /** TraverseTree(position, nodeIndex): the node's two children in order;
      the first node child whose box holds the point is descended into
      (and its answer is final), the first leaf child other than leaf 0
      whose box holds the point is the answer; otherwise -1. */
  function TraverseTree(nodes: seq<BspNode>, leafs: seq<BspLeaf>, p: Vector, nodeIndex: int): (r: Result<int>)
    requires Ordered(nodes)
    ensures r.Ok? ==> r.value == -1 || r.value >= 1
    ensures r.Ok? && r.value >= 1 ==>
      r.value < |leafs| && PointInBox(p, leafs[r.value].mins, leafs[r.value].maxs)
      && LeafChild(r.value) in LeafRefs(nodes, nodeIndex)
    decreases Rank(nodes, nodeIndex), 3
  {
    if nodeIndex < 0 || nodeIndex >= |nodes| then Err(IndexOutOfRange)
    else TraverseChildren(nodes, leafs, p, nodeIndex, 0)
  }

  /** The loop of TraverseTree from child i on. */
  function TraverseChildren(nodes: seq<BspNode>, leafs: seq<BspLeaf>, p: Vector, nodeIndex: int, i: nat): (r: Result<int>)
    requires Ordered(nodes) && 0 <= nodeIndex < |nodes| && i <= 2
    ensures r.Ok? ==> r.value == -1 || r.value >= 1
    ensures r.Ok? && r.value >= 1 ==>
      r.value < |leafs| && PointInBox(p, leafs[r.value].mins, leafs[r.value].maxs)
      && LeafChild(r.value) in LeafRefs(nodes, nodeIndex)
    decreases Rank(nodes, nodeIndex), 2 - i
  {
    if i == 2 then Ok(-1)
    else
      var c := nodes[nodeIndex].children[i];
      if c >= 0 then
        if c >= |nodes| then Err(IndexOutOfRange)
        else if PointInBox(p, nodes[c].mins, nodes[c].maxs) then TraverseTree(nodes, leafs, p, c)
        else TraverseChildren(nodes, leafs, p, nodeIndex, i + 1)
      else if ChildLeaf(c) != 0 then
        if ChildLeaf(c) >= |leafs| then Err(IndexOutOfRange)
        else if PointInBox(p, leafs[ChildLeaf(c)].mins, leafs[ChildLeaf(c)].maxs) then Ok(ChildLeaf(c))
        else TraverseChildren(nodes, leafs, p, nodeIndex, i + 1)
      else TraverseChildren(nodes, leafs, p, nodeIndex, i + 1)
  }

  /** A child TraverseTree stops at: a node whose box holds the point, or
      a leaf other than leaf 0 whose box holds it. */
  predicate Holds(nodes: seq<BspNode>, leafs: seq<BspLeaf>, p: Vector, c: int)
  {
    if c >= 0 then c < |nodes| && PointInBox(p, nodes[c].mins, nodes[c].maxs)
    else c != -1 && ChildLeaf(c) < |leafs| && PointInBox(p, leafs[ChildLeaf(c)].mins, leafs[ChildLeaf(c)].maxs)
  }

  /** What TraverseTree answers once it stops at child c. */
  function Descend(nodes: seq<BspNode>, leafs: seq<BspLeaf>, p: Vector, c: int): (r: Result<int>)
    requires Ordered(nodes)
    ensures c < 0 ==> r.Ok? && r.value >= 0 && LeafChild(r.value) == c
    ensures c >= 0 && r.Ok? && r.value != -1 ==>
      1 <= r.value < |leafs| && PointInBox(p, leafs[r.value].mins, leafs[r.value].maxs)
      && LeafChild(r.value) in LeafRefs(nodes, c)
  {
    if c >= 0 then TraverseTree(nodes, leafs, p, c) else Ok(ChildLeaf(c))
  }

  /** Child 0 is tried before child 1, without backtracking: in a tree
      whose children are all in range, TraverseTree answers for the first
      child that holds the point, and -1 when neither does. */
  lemma TraverseTreeFirstChild(nodes: seq<BspNode>, leafs: seq<BspLeaf>, p: Vector, nodeIndex: int)
    requires Ordered(nodes) && WellIndexed(nodes, leafs) && 0 <= nodeIndex < |nodes|
    ensures var c0, c1 := nodes[nodeIndex].children[0], nodes[nodeIndex].children[1];
      TraverseTree(nodes, leafs, p, nodeIndex) ==
        if Holds(nodes, leafs, p, c0) then Descend(nodes, leafs, p, c0)
        else if Holds(nodes, leafs, p, c1) then Descend(nodes, leafs, p, c1)
        else Ok(-1)
  {
    ChildrenInRange(nodes, leafs, nodeIndex, 0);
    ChildrenInRange(nodes, leafs, nodeIndex, 1);
    var c0, c1 := nodes[nodeIndex].children[0], nodes[nodeIndex].children[1];
    assert TraverseTree(nodes, leafs, p, nodeIndex) == TraverseChildren(nodes, leafs, p, nodeIndex, 0);
    assert TraverseChildren(nodes, leafs, p, nodeIndex, 0) ==
      if Holds(nodes, leafs, p, c0) then Descend(nodes, leafs, p, c0) else TraverseChildren(nodes, leafs, p, nodeIndex, 1);
    assert TraverseChildren(nodes, leafs, p, nodeIndex, 1) ==
      if Holds(nodes, leafs, p, c1) then Descend(nodes, leafs, p, c1) else TraverseChildren(nodes, leafs, p, nodeIndex, 2);
  }

  /** A tree whose children are all in range never fails to traverse. */
  lemma {:induction false} TraverseTreeTotal(nodes: seq<BspNode>, leafs: seq<BspLeaf>, p: Vector, nodeIndex: int)
    requires Ordered(nodes) && WellIndexed(nodes, leafs) && 0 <= nodeIndex < |nodes|
    ensures TraverseTree(nodes, leafs, p, nodeIndex).Ok?
    decreases Rank(nodes, nodeIndex)
  {
    TraverseTreeFirstChild(nodes, leafs, p, nodeIndex);
    var c0, c1 := nodes[nodeIndex].children[0], nodes[nodeIndex].children[1];
    if Holds(nodes, leafs, p, c0) {
      if c0 >= 0 {
        TraverseTreeTotal(nodes, leafs, p, c0);
      }
    } else if Holds(nodes, leafs, p, c1) {
      if c1 >= 0 {
        TraverseTreeTotal(nodes, leafs, p, c1);
      }
    }
  }

  // ---------------------------------------------------------------------
  // Drawing order

  /** DotProduct of two vectors. */
  function DotProduct(a: Vector, b: Vector): real
  {
    a.x * b.x + a.y * b.y + a.z * b.z
  }

  function VectorOf(v: Vec3): Vector
  {
    Vector(v[0], v[1], v[2])
  }

  /** The camera's signed distance to a plane: the coordinate itself for
      an axial plane, the dot product with the normal otherwise. */
  function Distance(plane: BspPlane, p: Vector): real
  {
    if plane.planeType == PLANE_X then p.x - plane.distance
    else if plane.planeType == PLANE_Y then p.y - plane.distance
    else if plane.planeType == PLANE_Z then p.z - plane.distance
    else DotProduct(VectorOf(plane.normal), p) - plane.distance
  }

  /** The axial shortcut is the dot product when the plane's normal is the
      unit vector along its axis. */
  lemma AxialDistanceIsDotProduct(plane: BspPlane, p: Vector)
    requires 0 <= plane.planeType < 3
    requires forall k :: 0 <= k < 3 ==> plane.normal[k] == if k == plane.planeType then 1.0 else 0.0
    ensures Distance(plane, p) == DotProduct(VectorOf(plane.normal), p) - plane.distance
  {
    assert plane.normal[0] == (if plane.planeType == 0 then 1.0 else 0.0);
    assert plane.normal[1] == (if plane.planeType == 1 then 1.0 else 0.0);
    assert plane.normal[2] == (if plane.planeType == 2 then 1.0 else 0.0);
  }

  /** RenderLeaf(leafIndex): the leaf's mark surfaces, FirstMarkSurface
      on, NumMarkSurfaces of them, in order; a leaf with none draws
      nothing wherever its first mark surface points. */
  function LeafFaces(m: BspMap, leafIndex: int): (r: Result<seq<int>>)
    ensures r.Ok? <==> (0 <= leafIndex < |m.leafs|
      && (m.leafs[leafIndex].numMarkSurfaces == 0
          || m.leafs[leafIndex].firstMarkSurface + m.leafs[leafIndex].numMarkSurfaces <= |m.markSurfaces|))
    ensures r.Ok? ==> (|r.value| == m.leafs[leafIndex].numMarkSurfaces
      && forall i :: 0 <= i < |r.value| ==> r.value[i] == m.markSurfaces[m.leafs[leafIndex].firstMarkSurface + i])
  {
    if leafIndex < 0 || leafIndex >= |m.leafs| then Err(IndexOutOfRange)
    else
      var leaf := m.leafs[leafIndex];
      if leaf.numMarkSurfaces == 0 then Ok([])
      else if leaf.firstMarkSurface + leaf.numMarkSurfaces > |m.markSurfaces| then Err(IndexOutOfRange)
      else Ok(m.markSurfaces[leaf.firstMarkSurface..leaf.firstMarkSurface + leaf.numMarkSurfaces])
  }

  /** RenderLeaf as the loop it is: one face per mark surface. */
  method RenderLeaf(m: BspMap, leafIndex: int) returns (r: Result<seq<int>>)
    ensures r == LeafFaces(m, leafIndex)
  {
    if leafIndex < 0 || leafIndex >= |m.leafs| {
      return Err(IndexOutOfRange);
    }
    var leaf := m.leafs[leafIndex];
    var drawn: seq<int> := [];
    for i := 0 to leaf.numMarkSurfaces
      invariant i == 0 || leaf.firstMarkSurface + i <= |m.markSurfaces|
      invariant |drawn| == i
      invariant forall k :: 0 <= k < i ==> drawn[k] == m.markSurfaces[leaf.firstMarkSurface + k]
    {
      if leaf.firstMarkSurface + i >= |m.markSurfaces| {
        return Err(IndexOutOfRange);
      }
      drawn := drawn + [m.markSurfaces[leaf.firstMarkSurface + i]];
    }
    if leaf.numMarkSurfaces > 0 {
      assert drawn == m.markSurfaces[leaf.firstMarkSurface..leaf.firstMarkSurface + leaf.numMarkSurfaces];
    }
    return Ok(drawn);
  }

  /** Leaf l is hidden from the camera's leaf: the camera is in a leaf,
      the map has visibility data, the camera leaf has a list and entry
      l-1 of it is false.  Indexing outside the lists fails. */
  function Culled(m: BspMap, cameraLeaf: int, leaf: nat): (r: Result<bool>)
    requires |m.header.lumps| == HEADER_LUMPS
    ensures r == Ok(true) <==>
      cameraLeaf > 0 && m.header.lumps[LUMP_VISIBILITY].length != 0 && m.visList.Some?
      && cameraLeaf - 1 < |m.visList.value| && m.visList.value[cameraLeaf - 1].Some?
      && 1 <= leaf <= |m.visList.value[cameraLeaf - 1].value|
      && !m.visList.value[cameraLeaf - 1].value[leaf - 1]
    ensures r.Err? <==>
      cameraLeaf > 0 && m.header.lumps[LUMP_VISIBILITY].length != 0 && m.visList.Some?
      && (cameraLeaf - 1 >= |m.visList.value|
          || (m.visList.value[cameraLeaf - 1].Some? && !(1 <= leaf <= |m.visList.value[cameraLeaf - 1].value|)))
    ensures r.Err? ==> r.error == IndexOutOfRange
  {
    if cameraLeaf <= 0 || m.header.lumps[LUMP_VISIBILITY].length == 0 || m.visList.None? then Ok(false)
    else if cameraLeaf - 1 >= |m.visList.value| then Err(IndexOutOfRange)
    else if m.visList.value[cameraLeaf - 1].None? then Ok(false)
    else if leaf < 1 || leaf - 1 >= |m.visList.value[cameraLeaf - 1].value| then Err(IndexOutOfRange)
    else Ok(!m.visList.value[cameraLeaf - 1].value[leaf - 1])
  }

  /** Two draws in a row; the first failure ends the walk. */
  function Then(a: Result<seq<int>>, b: Result<seq<int>>): (r: Result<seq<int>>)
    ensures r.Ok? <==> a.Ok? && b.Ok?
    ensures r.Ok? ==> r.value == a.value + b.value
  {
    if a.Err? then a else if b.Err? then b else Ok(a.value + b.value)
  }

  /** Drawing nothing before or after a draw changes nothing. */
  lemma ThenNothing(a: Result<seq<int>>)
    ensures Then(Ok([]), a) == a && Then(a, Ok([])) == a
  {
    if a.Ok? {
      assert [] + a.value == a.value && a.value + [] == a.value;
    }
  }

  lemma ThenAssociative(a: Result<seq<int>>, b: Result<seq<int>>, c: Result<seq<int>>)
    ensures Then(Then(a, b), c) == Then(a, Then(b, c))
  {
    if a.Ok? && b.Ok? && c.Ok? {
      assert (a.value + b.value) + c.value == a.value + (b.value + c.value);
    }
  }

  /** RenderNode(nodeIndex, cameraLeaf, cameraPos): leaf 0 draws nothing, a
      leaf draws its faces unless it is culled, and a node draws the child
      on the camera's side first (child 1 when the distance is positive,
      else child 0), then the other. */
  function RenderNode(m: BspMap, nodeIndex: int, cameraLeaf: int, p: Vector): (r: Result<seq<int>>)
    requires |m.header.lumps| == HEADER_LUMPS && Ordered(m.nodes)
    ensures nodeIndex == -1 ==> r == Ok([])
    ensures r.Ok? ==> forall f :: f in r.value ==> f in m.markSurfaces
    decreases Rank(m.nodes, nodeIndex)
  {
    if nodeIndex < 0 then
      if nodeIndex == -1 then Ok([])
      else
        var culled :- Culled(m, cameraLeaf, ChildLeaf(nodeIndex));
        if culled then Ok([]) else LeafFaces(m, ChildLeaf(nodeIndex))
    else if nodeIndex >= |m.nodes| then Err(IndexOutOfRange)
    else
      var node := m.nodes[nodeIndex];
      if node.planeId < 0 || node.planeId >= |m.planes| then Err(IndexOutOfRange)
      else if Distance(m.planes[node.planeId], p) > 0.0 then
        Then(RenderNode(m, node.children[1], cameraLeaf, p), RenderNode(m, node.children[0], cameraLeaf, p))
      else
        Then(RenderNode(m, node.children[0], cameraLeaf, p), RenderNode(m, node.children[1], cameraLeaf, p))
  }

  /** RenderLevel(cameraPos): find the camera's leaf from node 0, then walk
      the tree from node 0. */
  function RenderLevel(m: BspMap, p: Vector): (r: Result<seq<int>>)
    requires |m.header.lumps| == HEADER_LUMPS && Ordered(m.nodes)
    ensures r.Ok? ==> (TraverseTree(m.nodes, m.leafs, p, 0).Ok?
      && r == RenderNode(m, 0, TraverseTree(m.nodes, m.leafs, p, 0).value, p))
  {
    var cameraLeaf :- TraverseTree(m.nodes, m.leafs, p, 0);
    RenderNode(m, 0, cameraLeaf, p)
  }

  // ---------------------------------------------------------------------
  // What the walk draws

  /** Every node's plane exists. */
  predicate PlanesInRange(m: BspMap)
  {
    forall i :: 0 <= i < |m.nodes| ==> 0 <= m.nodes[i].planeId < |m.planes|
  }

  /** The faces of the leaves a list of children stands for, in list
      order, leaf 0 drawing nothing. */
  function RefFaces(m: BspMap, refs: seq<int>): (r: Result<seq<int>>)
    requires forall j :: 0 <= j < |refs| ==> refs[j] < 0
    ensures r.Ok? <==> forall j :: 0 <= j < |refs| && refs[j] != -1 ==> LeafFaces(m, ChildLeaf(refs[j])).Ok?
    ensures r.Ok? ==> forall f :: f in r.value ==> f in m.markSurfaces
  {
    if refs == [] then Ok([])
    else
      var last := refs[|refs| - 1];
      Then(RefFaces(m, refs[..|refs| - 1]), if last == -1 then Ok([]) else LeafFaces(m, ChildLeaf(last)))
  }

  lemma {:induction false} RefFacesAppend(m: BspMap, a: seq<int>, b: seq<int>)
    requires forall j :: 0 <= j < |a| ==> a[j] < 0
    requires forall j :: 0 <= j < |b| ==> b[j] < 0
    ensures RefFaces(m, a + b) == Then(RefFaces(m, a), RefFaces(m, b))
    decreases |b|
  {
    if b == [] {
      assert a + b == a;
      ThenNothing(RefFaces(m, a));
    } else {
      var b' := b[..|b| - 1];
      var last := b[|b| - 1];
      var x := if last == -1 then Ok([]) else LeafFaces(m, ChildLeaf(last));
      assert (a + b)[..|a + b| - 1] == a + b';
      assert (a + b)[|a + b| - 1] == last;
      assert RefFaces(m, a + b) == Then(RefFaces(m, a + b'), x);
      assert RefFaces(m, b) == Then(RefFaces(m, b'), x);
      RefFacesAppend(m, a, b');
      ThenAssociative(RefFaces(m, a), RefFaces(m, b'), x);
    }
  }

  /** Two successful draws draw the union of what each draws, in either
      order. */
  lemma ThenMultiset(a: Result<seq<int>>, b: Result<seq<int>>)
    ensures Then(a, b).Ok? <==> Then(b, a).Ok?
    ensures Then(a, b).Ok? ==> (multiset(Then(a, b).value) == multiset(a.value) + multiset(b.value)
      && multiset(Then(b, a).value) == multiset(a.value) + multiset(b.value))
  {
  }

  /** Without a vis list, or with the camera outside every leaf, no leaf
      is culled. */
  lemma NothingCulled(m: BspMap, cameraLeaf: int, leaf: nat)
    requires |m.header.lumps| == HEADER_LUMPS
    requires m.visList.None? || cameraLeaf <= 0
    ensures Culled(m, cameraLeaf, leaf) == Ok(false)
  {
  }

  /** A leaf child draws its leaf's faces, and leaf 0 draws nothing. */
  lemma UnculledLeaf(m: BspMap, c: int, cameraLeaf: int, p: Vector)
    requires |m.header.lumps| == HEADER_LUMPS && Ordered(m.nodes)
    requires m.visList.None? || cameraLeaf <= 0
    requires c < 0
    ensures RenderNode(m, c, cameraLeaf, p) == RefFaces(m, LeafRefs(m.nodes, c))
  {
    assert LeafRefs(m.nodes, c) == [c];
    assert [c][..0] == [];
    if c != -1 {
      NothingCulled(m, cameraLeaf, ChildLeaf(c));
      ThenNothing(LeafFaces(m, ChildLeaf(c)));
    } else {
      ThenNothing(Ok([]));
    }
  }

  /** Without culling (no vis list, as the loader leaves it, or the camera
      outside every leaf), the walk draws the faces of every leaf below the
      node exactly once: the same multiset as the leaves taken left to
      right, and it succeeds exactly when that does. */
  lemma {:induction false} UnculledWalkDrawsEveryLeaf(m: BspMap, nodeIndex: int, cameraLeaf: int, p: Vector)
    requires |m.header.lumps| == HEADER_LUMPS && Ordered(m.nodes)
    requires WellIndexed(m.nodes, m.leafs) && PlanesInRange(m)
    requires m.visList.None? || cameraLeaf <= 0
    requires nodeIndex < |m.nodes|
    ensures RenderNode(m, nodeIndex, cameraLeaf, p).Ok? <==> RefFaces(m, LeafRefs(m.nodes, nodeIndex)).Ok?
    ensures RenderNode(m, nodeIndex, cameraLeaf, p).Ok? ==>
      multiset(RenderNode(m, nodeIndex, cameraLeaf, p).value) == multiset(RefFaces(m, LeafRefs(m.nodes, nodeIndex)).value)
    decreases Rank(m.nodes, nodeIndex)
  {
    if nodeIndex < 0 {
      UnculledLeaf(m, nodeIndex, cameraLeaf, p);
    } else {
      var c0, c1 := m.nodes[nodeIndex].children[0], m.nodes[nodeIndex].children[1];
      ChildrenInRange(m.nodes, m.leafs, nodeIndex, 0);
      ChildrenInRange(m.nodes, m.leafs, nodeIndex, 1);
      UnculledWalkDrawsEveryLeaf(m, c0, cameraLeaf, p);
      UnculledWalkDrawsEveryLeaf(m, c1, cameraLeaf, p);
      NodeDrawsBothChildren(m, nodeIndex, cameraLeaf, p);
      assert LeafRefs(m.nodes, nodeIndex) == LeafRefs(m.nodes, c0) + LeafRefs(m.nodes, c1);
      SameFacesEitherOrder(m, RenderNode(m, c0, cameraLeaf, p), RenderNode(m, c1, cameraLeaf, p),
                           LeafRefs(m.nodes, c0), LeafRefs(m.nodes, c1), RenderNode(m, nodeIndex, cameraLeaf, p));
    }
  }

  /** A node with its plane in range draws its two children, the one on
      the camera's side first. */
  lemma NodeDrawsBothChildren(m: BspMap, nodeIndex: int, cameraLeaf: int, p: Vector)
    requires |m.header.lumps| == HEADER_LUMPS && Ordered(m.nodes)
    requires PlanesInRange(m) && 0 <= nodeIndex < |m.nodes|
    ensures var c0, c1 := m.nodes[nodeIndex].children[0], m.nodes[nodeIndex].children[1];
      RenderNode(m, nodeIndex, cameraLeaf, p) == Then(RenderNode(m, c0, cameraLeaf, p), RenderNode(m, c1, cameraLeaf, p))
      || RenderNode(m, nodeIndex, cameraLeaf, p) == Then(RenderNode(m, c1, cameraLeaf, p), RenderNode(m, c0, cameraLeaf, p))
  {
  }

  /** The node step of the walk: two children that each draw the faces of
      their leaves, in whichever order, draw the faces of both runs. */
  lemma SameFacesEitherOrder(m: BspMap, r0: Result<seq<int>>, r1: Result<seq<int>>,
                             refs0: seq<int>, refs1: seq<int>, r: Result<seq<int>>)
    requires forall j :: 0 <= j < |refs0| ==> refs0[j] < 0
    requires forall j :: 0 <= j < |refs1| ==> refs1[j] < 0
    requires r0.Ok? <==> RefFaces(m, refs0).Ok?
    requires r0.Ok? ==> multiset(r0.value) == multiset(RefFaces(m, refs0).value)
    requires r1.Ok? <==> RefFaces(m, refs1).Ok?
    requires r1.Ok? ==> multiset(r1.value) == multiset(RefFaces(m, refs1).value)
    requires r == Then(r0, r1) || r == Then(r1, r0)
    ensures r.Ok? <==> RefFaces(m, refs0 + refs1).Ok?
    ensures r.Ok? ==> multiset(r.value) == multiset(RefFaces(m, refs0 + refs1).value)
  {
    RefFacesAppend(m, refs0, refs1);
    ThenMultiset(r0, r1);
    ThenMultiset(RefFaces(m, refs0), RefFaces(m, refs1));
  }

  /** Culling only removes draws: when the walk succeeds both with the
      vis list and without it, every face is drawn at most as often with
      it. */
  lemma {:induction false} CullingOnlyRemoves(m: BspMap, nodeIndex: int, cameraLeaf: int, p: Vector)
    requires |m.header.lumps| == HEADER_LUMPS && Ordered(m.nodes)
    requires RenderNode(m, nodeIndex, cameraLeaf, p).Ok?
    requires RenderNode(m.(visList := None), nodeIndex, cameraLeaf, p).Ok?
    ensures multiset(RenderNode(m, nodeIndex, cameraLeaf, p).value)
      <= multiset(RenderNode(m.(visList := None), nodeIndex, cameraLeaf, p).value)
    decreases Rank(m.nodes, nodeIndex)
  {
    var open := m.(visList := None);
    if nodeIndex < -1 {
      NothingCulled(open, cameraLeaf, ChildLeaf(nodeIndex));
    } else if 0 <= nodeIndex < |m.nodes| {
      var c0, c1 := m.nodes[nodeIndex].children[0], m.nodes[nodeIndex].children[1];
      var plane := m.planes[m.nodes[nodeIndex].planeId];
      var near, far := if Distance(plane, p) > 0.0 then c1 else c0, if Distance(plane, p) > 0.0 then c0 else c1;
      assert RenderNode(m, nodeIndex, cameraLeaf, p) ==
        Then(RenderNode(m, near, cameraLeaf, p), RenderNode(m, far, cameraLeaf, p));
      assert RenderNode(open, nodeIndex, cameraLeaf, p) ==
        Then(RenderNode(open, near, cameraLeaf, p), RenderNode(open, far, cameraLeaf, p));
      CullingOnlyRemoves(m, near, cameraLeaf, p);
      CullingOnlyRemoves(m, far, cameraLeaf, p);
    }
  }
}
