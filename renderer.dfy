/** The desktop renderer's own share of drawing: PreRender lays every
    face's vertices out in one buffer, region after region, and RenderFace
    decides how one face is drawn (skipped as sky, which primitive, which
    normal, which vertices).  The graphics calls themselves are outputs:
    the buffers PreRender hands over and the draw RenderFace issues. */
module DesktopRendering {
  import opened Wrappers
  import opened BspDefs
  import opened BspLumps
  import opened BspLoading
  import opened BspRendering

  /** Where a face's vertices lie in the vertex buffer. */
  datatype FaceBuffer = FaceBuffer(start: int, count: int)

  /** What PreRender produces: the face regions, the vertex list and the
      normal list (three numbers per vertex). */
  datatype Buffers = Buffers(regions: seq<FaceBuffer>, vertices: seq<Vector>, normals: seq<real>)

  datatype PrimitiveMode = Triangles | Quads | Polygon

  /** One face as RenderFace draws it: the primitive, then a normal and a
      vertex per edge. */
  datatype FaceDraw = FaceDraw(mode: PrimitiveMode, normals: seq<Vector>, vertices: seq<Vector>)

  // ---------------------------------------------------------------------
  // The surf-edge walk

  /** The vertex a surf edge starts at: a positive e is edge e walked
      forwards (its first vertex), anything else is edge -e walked
      backwards (its second vertex), so e == 0 takes the second vertex of
      edge 0. */
  function EdgeVertexIndex(m: BspMap, e: int): (r: Result<nat>)
    ensures e > 0 ==> r == (if e < |m.edges| then Ok(m.edges[e].vertex[0]) else Err(IndexOutOfRange))
    ensures e <= 0 ==> r == (if -e < |m.edges| then Ok(m.edges[-e].vertex[1]) else Err(IndexOutOfRange))
  {
    var index := if e > 0 then e else -e;
    if index >= |m.edges| then Err(IndexOutOfRange)
    else if e > 0 then Ok(m.edges[index].vertex[0])
    else Ok(m.edges[index].vertex[1])
  }

  /** The j-th vertex of a face: surf edge FirstEdge + j, its starting
      vertex, that vertex's point. */
  function WalkVertex(m: BspMap, face: BspFace, j: nat): (r: Result<Vector>)
    ensures r.Ok? <==>
      0 <= face.firstEdge + j < |m.surfEdges|
      && EdgeVertexIndex(m, m.surfEdges[face.firstEdge + j]).Ok?
      && EdgeVertexIndex(m, m.surfEdges[face.firstEdge + j]).value < |m.vertices|
    ensures r.Ok? ==> var e := m.surfEdges[face.firstEdge + j];
      0 <= (if e > 0 then e else -e) < |m.edges|
      && r.value == VectorOf(m.vertices[if e > 0 then m.edges[e].vertex[0] else m.edges[-e].vertex[1]].point)
  {
    var k := face.firstEdge + j;
    if k < 0 || k >= |m.surfEdges| then Err(IndexOutOfRange)
    else
      var v :- EdgeVertexIndex(m, m.surfEdges[k]);
      if v >= |m.vertices| then Err(IndexOutOfRange) else Ok(VectorOf(m.vertices[v].point))
  }

  /** The first n vertices of a face's walk; the first one that cannot be
      looked up decides the error. */
  function FaceWalk(m: BspMap, face: BspFace, n: nat): (r: Result<seq<Vector>>)
    ensures r.Ok? ==> |r.value| == n
    ensures r.Ok? <==> forall j :: 0 <= j < n ==> WalkVertex(m, face, j).Ok?
    ensures r.Ok? ==> forall j :: 0 <= j < n ==> r.value[j] == WalkVertex(m, face, j).value
  {
    if n == 0 then Ok([])
    else
      var walk :- FaceWalk(m, face, n - 1);
      var v :- WalkVertex(m, face, n - 1);
      Ok(walk + [v])
  }

  /** Once a vertex of the walk fails, the whole walk fails with it. */
  lemma {:induction false} FaceWalkFails(m: BspMap, face: BspFace, k: nat, n: nat)
    requires k <= n && FaceWalk(m, face, k).Err?
    ensures FaceWalk(m, face, n) == FaceWalk(m, face, k)
    decreases n
  {
    if k < n {
      FaceWalkFails(m, face, k, n - 1);
    }
  }

  /** How many vertices a face contributes: NumEdges, or none when it is
      not positive. */
  function EdgeCount(face: BspFace): nat
  {
    if face.numEdges > 0 then face.numEdges else 0
  }

  /** The vertices the faces before index n contribute. */
  function SumEdges(faces: seq<BspFace>): nat
  {
    if faces == [] then 0 else SumEdges(faces[..|faces| - 1]) + EdgeCount(faces[|faces| - 1])
  }

  /** A normal copied once per vertex, three numbers each. */
  function Repeat3(normal: Vec3, k: nat): (r: seq<real>)
    ensures |r| == 3 * k
  {
    if k == 0 then [] else Repeat3(normal, k - 1) + normal
  }

  /** Vertex q's three numbers in a repeated normal are the normal. */
  lemma {:induction false} Repeat3At(normal: Vec3, k: nat, q: nat)
    requires q < k
    ensures Repeat3(normal, k)[3 * q..3 * q + 3] == normal
    decreases k
  {
    if q < k - 1 {
      Repeat3At(normal, k - 1, q);
      assert Repeat3(normal, k)[3 * q..3 * q + 3] == Repeat3(normal, k - 1)[3 * q..3 * q + 3];
    }
  }

  // ---------------------------------------------------------------------
  // PreRender

  /** PreRender over the first n faces: face i's region starts where the
      vertex list ends, counts NumEdges, and its walk is appended with the
      plane's normal once per vertex.  A missing plane, surf edge, edge or
      vertex fails. */
  function Layout(m: BspMap, n: nat): (r: Result<Buffers>)
    requires n <= |m.faces|
    ensures r.Ok? ==> |r.value.regions| == n
    ensures r.Ok? ==> |r.value.vertices| == SumEdges(m.faces[..n]) && |r.value.normals| == 3 * |r.value.vertices|
  {
    if n == 0 then Ok(Buffers([], [], []))
    else
      var prev :- Layout(m, n - 1);
      var face := m.faces[n - 1];
      if face.planeId < 0 || face.planeId >= |m.planes| then Err(IndexOutOfRange)
      else
        var walk :- FaceWalk(m, face, EdgeCount(face));
        assert m.faces[..n][..n - 1] == m.faces[..n - 1];
        Ok(Buffers(prev.regions + [FaceBuffer(|prev.vertices|, face.numEdges)],
                   prev.vertices + walk,
                   prev.normals + Repeat3(m.planes[face.planeId].normal, |walk|)))
  }

  /** One more face whose plane and walk exist appends its region, its
      walk and its normals. */
  lemma LayoutStep(m: BspMap, i: nat, prev: Buffers, walk: seq<Vector>)
    requires i < |m.faces| && Layout(m, i) == Ok(prev)
    requires 0 <= m.faces[i].planeId < |m.planes|
    requires FaceWalk(m, m.faces[i], EdgeCount(m.faces[i])) == Ok(walk)
    ensures Layout(m, i + 1) == Ok(Buffers(prev.regions + [FaceBuffer(|prev.vertices|, m.faces[i].numEdges)],
      prev.vertices + walk, prev.normals + Repeat3(m.planes[m.faces[i].planeId].normal, |walk|)))
  {
  }

  /** A face whose plane is missing makes PreRender fail. */
  lemma LayoutStopsAtPlane(m: BspMap, i: nat, n: nat)
    requires i < n <= |m.faces| && Layout(m, i).Ok?
    requires !(0 <= m.faces[i].planeId < |m.planes|)
    ensures Layout(m, n) == Err(IndexOutOfRange)
  {
    assert Layout(m, i + 1) == Err(IndexOutOfRange);
    LayoutFails(m, i + 1, n);
  }

  /** A face whose walk fails makes PreRender fail with the walk's error. */
  lemma LayoutStopsAtWalk(m: BspMap, i: nat, n: nat)
    requires i < n <= |m.faces| && Layout(m, i).Ok?
    requires 0 <= m.faces[i].planeId < |m.planes| && FaceWalk(m, m.faces[i], EdgeCount(m.faces[i])).Err?
    ensures Layout(m, n) == Err(FaceWalk(m, m.faces[i], EdgeCount(m.faces[i])).error)
  {
    assert Layout(m, i + 1) == Err(FaceWalk(m, m.faces[i], EdgeCount(m.faces[i])).error);
    LayoutFails(m, i + 1, n);
  }

  /** Laying out more faces only appends: the buffers for the first k
      faces are prefixes of those for the first n. */
  lemma {:induction false} LayoutPrefix(m: BspMap, k: nat, n: nat)
    requires k <= n <= |m.faces| && Layout(m, n).Ok?
    ensures Layout(m, k).Ok?
    ensures var a, b := Layout(m, k).value, Layout(m, n).value;
      a.regions <= b.regions && a.vertices <= b.vertices && a.normals <= b.normals
    decreases n
  {
    if k < n {
      LayoutPrefix(m, k, n - 1);
    }
  }

  /** Once a face fails, PreRender fails with that error whatever follows. */
  lemma {:induction false} LayoutFails(m: BspMap, k: nat, n: nat)
    requires k <= n <= |m.faces| && Layout(m, k).Err?
    ensures Layout(m, n) == Layout(m, k)
    decreases n
  {
    if k < n {
      LayoutFails(m, k, n - 1);
    }
  }

  /** The buffers for the first i + 1 faces end with face i's region,
      its walk and its normals. */
  lemma LayoutLast(m: BspMap, i: nat)
    requires i < |m.faces| && Layout(m, i + 1).Ok?
    ensures var a, face, s := Layout(m, i + 1).value, m.faces[i], SumEdges(m.faces[..i]);
      a.regions[i] == FaceBuffer(s, face.numEdges)
      && 0 <= face.planeId < |m.planes|
      && FaceWalk(m, face, EdgeCount(face)).Ok?
      && a.vertices[s..] == FaceWalk(m, face, EdgeCount(face)).value
      && a.normals[3 * s..] == Repeat3(m.planes[face.planeId].normal, EdgeCount(face))
  {
    var prev := Layout(m, i).value;
    var face := m.faces[i];
    var walk := FaceWalk(m, face, EdgeCount(face)).value;
    var a := Layout(m, i + 1).value;
    assert a == Buffers(prev.regions + [FaceBuffer(|prev.vertices|, face.numEdges)],
                        prev.vertices + walk, prev.normals + Repeat3(m.planes[face.planeId].normal, |walk|));
  }

  /** Face i's region starts at the sum of the positive NumEdges before it
      and counts its own NumEdges; the vertices there are exactly its walk,
      and the normals there are its plane's normal once per vertex. */
  lemma LayoutRegions(m: BspMap, n: nat, i: nat)
    requires n <= |m.faces| && i < n && Layout(m, n).Ok?
    ensures var b, face, s := Layout(m, n).value, m.faces[i], SumEdges(m.faces[..i]);
      b.regions[i] == FaceBuffer(s, face.numEdges)
      && 0 <= face.planeId < |m.planes|
      && FaceWalk(m, face, EdgeCount(face)).Ok?
      && s + EdgeCount(face) <= |b.vertices|
      && b.vertices[s..s + EdgeCount(face)] == FaceWalk(m, face, EdgeCount(face)).value
      && b.normals[3 * s..3 * (s + EdgeCount(face))] == Repeat3(m.planes[face.planeId].normal, EdgeCount(face))
  {
    LayoutPrefix(m, i + 1, n);
    LayoutLast(m, i);
    var a, b := Layout(m, i + 1).value, Layout(m, n).value;
    var s, e := SumEdges(m.faces[..i]), SumEdges(m.faces[..i]) + EdgeCount(m.faces[i]);
    assert |a.vertices| == e by { assert m.faces[..i + 1][..i] == m.faces[..i]; }
    PrefixSlice(a.vertices, b.vertices, s);
    PrefixSlice(a.normals, b.normals, 3 * s);
  }

  /** A slice running to the end of a prefix is the same slice of the
      longer sequence. */
  lemma PrefixSlice<T>(a: seq<T>, b: seq<T>, lo: nat)
    requires a <= b && lo <= |a|
    ensures b[lo..|a|] == a[lo..]
  {
  }

  /** The desktop renderer: the map it draws and the face regions
      PreRender lays out. */
  class Renderer {
    const level: BspMap
    var faceBufferRegions: array<FaceBuffer>
    /** What the constructor's call of PreRender produced: the buffers, or
        the exception that makes construction throw. */
    var prepared: Result<Buffers>

    /** The constructor runs PreRender: a renderer holds every face's
        region from the start, unless a missing plane, surf edge, edge or
        vertex made construction fail. */
    constructor(m: BspMap)
      ensures level == m && prepared == Layout(m, |m.faces|)
      ensures faceBufferRegions.Length == |m.faces|
      ensures prepared.Ok? ==> faceBufferRegions[..] == prepared.value.regions
    {
      level := m;
      faceBufferRegions := new FaceBuffer[0];
      prepared := Ok(Buffers([], [], []));
      new;
      prepared := PreRender();
    }

    /** PreRender: a region per face, filled face by face, and the vertex
        and normal lists handed to the vertex buffer. */
    method PreRender() returns (r: Result<Buffers>)
      modifies this
      ensures r == Layout(level, |level.faces|)
      ensures fresh(faceBufferRegions) && faceBufferRegions.Length == |level.faces|
      ensures r.Ok? ==> faceBufferRegions[..] == r.value.regions
    {
      var faces := level.faces;
      var regions := new FaceBuffer[|faces|];
      faceBufferRegions := regions;
      var vertexList: seq<Vector> := [];
      var normalList: seq<real> := [];
      var elements := 0;
      for i := 0 to |faces|
        invariant faceBufferRegions == regions
        invariant Layout(level, i) == Ok(Buffers(regions[..i], vertexList, normalList))
        invariant elements == |vertexList|
      {
        var face := faces[i];
        regions[i] := FaceBuffer(elements, face.numEdges);
        if face.planeId < 0 || face.planeId >= |level.planes| {
          LayoutStopsAtPlane(level, i, |faces|);
          return Err(IndexOutOfRange);
        }
        var normal := level.planes[face.planeId].normal;
        var walk := WalkFace(level, face);
        if walk.Err? {
          LayoutStopsAtWalk(level, i, |faces|);
          return Err(walk.error);
        }
        assert regions[..i + 1] == regions[..i] + [FaceBuffer(elements, face.numEdges)];
        LayoutStep(level, i, Buffers(regions[..i], vertexList, normalList), walk.value);
        vertexList := vertexList + walk.value;
        normalList := normalList + Repeat3(normal, |walk.value|);
        elements := elements + |walk.value|;
      }
      assert regions[..] == regions[..|faces|];
      return Ok(Buffers(regions[..], vertexList, normalList));
    }

    /** The inner loop of PreRender: one vertex per edge of the face. */
    static method WalkFace(m: BspMap, face: BspFace) returns (r: Result<seq<Vector>>)
      ensures r == FaceWalk(m, face, EdgeCount(face))
    {
      var walk: seq<Vector> := [];
      var j := 0;
      while j < face.numEdges
        invariant 0 <= j <= EdgeCount(face)
        invariant FaceWalk(m, face, j) == Ok(walk)
      {
        var vertex := WalkVertex(m, face, j);
        if vertex.Err? {
          FaceWalkFails(m, face, j + 1, EdgeCount(face));
          return Err(vertex.error);
        }
        walk := walk + [vertex.value];
        j := j + 1;
      }
      return Ok(walk);
    }

    /** RenderFace(faceIndex): how the face is drawn, or nothing for sky. */
    method RenderFace(faceIndex: int) returns (r: Result<Option<FaceDraw>>)
      ensures r == FaceDrawOf(level, faceIndex)
    {
      if faceIndex < 0 || faceIndex >= |level.faces| {
        return Err(IndexOutOfRange);
      }
      var face := level.faces[faceIndex];
      if |face.styles| == 0 {
        return Err(IndexOutOfRange);
      }
      if face.styles[0] == 0xFF {
        return Ok(None);
      }
      var mode := ModeOf(face.numEdges);
      var normals: seq<Vector> := [];
      var vertices: seq<Vector> := [];
      var i := 0;
      while i < face.numEdges
        invariant 0 <= i <= EdgeCount(face)
        invariant i > 0 ==> 0 <= face.planeId < |level.planes|
        invariant |normals| == i && forall k :: 0 <= k < i ==> normals[k] == FaceNormal(level.planes[face.planeId], face.planeSide)
        invariant FaceWalk(level, face, i) == Ok(vertices)
      {
        if face.planeId < 0 || face.planeId >= |level.planes| {
          return Err(IndexOutOfRange);
        }
        var normal := FaceNormal(level.planes[face.planeId], face.planeSide);
        normals := normals + [normal];
        var vertex := WalkVertex(level, face, i);
        if vertex.Err? {
          FaceWalkFails(level, face, i + 1, EdgeCount(face));
          return Err(vertex.error);
        }
        vertices := vertices + [vertex.value];
        i := i + 1;
      }
      if i > 0 {
        assert normals == seq(|vertices|, _ => FaceNormal(level.planes[face.planeId], face.planeSide));
      }
      return Ok(Some(FaceDraw(mode, normals, vertices)));
    }
  }

  // ---------------------------------------------------------------------
  // RenderFace

  /** Three edges make triangles, four make quads, any other count a
      polygon. */
  function ModeOf(numEdges: int): (mode: PrimitiveMode)
    ensures mode == Triangles <==> numEdges == 3
    ensures mode == Quads <==> numEdges == 4
  {
    if numEdges == 3 then Triangles else if numEdges == 4 then Quads else Polygon
  }

  /** The plane's normal, negated when the face lies on the plane's back
      side. */
  function FaceNormal(plane: BspPlane, planeSide: int): (n: Vector)
    ensures planeSide == 0 ==> n == VectorOf(plane.normal)
    ensures planeSide != 0 ==> n == Vector(-plane.normal[0], -plane.normal[1], -plane.normal[2])
  {
    var v := VectorOf(plane.normal);
    if planeSide != 0 then Vector(-v.x, -v.y, -v.z) else v
  }

  /** RenderFace as a value: a face whose first light style is 0xFF is sky
      and is skipped; otherwise the primitive for its edge count, and per
      edge the oriented normal and the walked vertex. */
  function FaceDrawOf(m: BspMap, faceIndex: int): (r: Result<Option<FaceDraw>>)
    ensures r.Ok? && r.value.None? <==>
      0 <= faceIndex < |m.faces| && |m.faces[faceIndex].styles| > 0 && m.faces[faceIndex].styles[0] == 0xFF
    ensures r.Ok? && r.value.Some? ==> (0 <= faceIndex < |m.faces| &&
      var face := m.faces[faceIndex];
      r.value.value.mode == ModeOf(face.numEdges)
      && |r.value.value.vertices| == |r.value.value.normals| == EdgeCount(face)
      && (EdgeCount(face) > 0 ==> (0 <= face.planeId < |m.planes|
          && forall k :: 0 <= k < EdgeCount(face) ==>
               r.value.value.normals[k] == FaceNormal(m.planes[face.planeId], face.planeSide))))
  {
    if faceIndex < 0 || faceIndex >= |m.faces| then Err(IndexOutOfRange)
    else
      var face := m.faces[faceIndex];
      if |face.styles| == 0 then Err(IndexOutOfRange)
      else if face.styles[0] == 0xFF then Ok(None)
      else if EdgeCount(face) == 0 then Ok(Some(FaceDraw(ModeOf(face.numEdges), [], [])))
      else if face.planeId < 0 || face.planeId >= |m.planes| then Err(IndexOutOfRange)
      else
        var walk :- FaceWalk(m, face, EdgeCount(face));
        var normal := FaceNormal(m.planes[face.planeId], face.planeSide);
        Ok(Some(FaceDraw(ModeOf(face.numEdges), seq(|walk|, _ => normal), walk)))
  }

  /** The vertices RenderFace draws for a face are the ones PreRender put
      in that face's region of the vertex buffer. */
  lemma DrawMatchesRegion(m: BspMap, faceIndex: nat)
    requires faceIndex < |m.faces|
    requires Layout(m, |m.faces|).Ok? && FaceDrawOf(m, faceIndex).Ok? && FaceDrawOf(m, faceIndex).value.Some?
    ensures var b, s, count := Layout(m, |m.faces|).value, SumEdges(m.faces[..faceIndex]), EdgeCount(m.faces[faceIndex]);
      b.regions[faceIndex].start == s && s + count <= |b.vertices|
      && FaceDrawOf(m, faceIndex).value.value.vertices == b.vertices[s..s + count]
  {
    LayoutRegions(m, |m.faces|, faceIndex);
  }
}
