/** The potentially visible set: counting the leaves that carry visibility
    data, the run-length decoding of one leaf's visibility bits, and the
    table of decoded lists that LoadVis builds. */
module BspVis {
  import opened Wrappers
  import opened Bytes
  import opened BinaryReading
  import opened BspDefs
  import opened BspLumps
  import opened BspDecode

  // ---------------------------------------------------------------------
  // Counting the leaves

  /** Node children point forward: every child that is a node has a larger
      index than its parent, so the tree has no cycle. */
  predicate Ordered(nodes: seq<BspNode>)
  {
    forall i :: 0 <= i < |nodes| ==>
      (nodes[i].children[0] < 0 || nodes[i].children[0] > i)
      && (nodes[i].children[1] < 0 || nodes[i].children[1] > i)
  }

  /** The measure of the recursion: how far a node index is from the end. */
  function Rank(nodes: seq<BspNode>, nodeIndex: int): nat
  {
    if 0 <= nodeIndex < |nodes| then |nodes| - nodeIndex else 0
  }

  /** CountVisLeafs(nodeIndex): child -1 (leaf 0) counts 0, a solid leaf 0,
      any other leaf 1, a node the (unchecked int32) sum over its two
      children, first child first. */
  function CountVisLeafs(nodes: seq<BspNode>, leafs: seq<BspLeaf>, nodeIndex: int): (r: Result<int>)
    requires Ordered(nodes)
    ensures r.Ok? ==> IsInt32(r.value)
    decreases Rank(nodes, nodeIndex)
  {
    if nodeIndex < 0 then
      if nodeIndex == -1 then Ok(0)
      else if ChildLeaf(nodeIndex) >= |leafs| then Err(IndexOutOfRange)
      else if leafs[ChildLeaf(nodeIndex)].contents == CONTENTS_SOLID then Ok(0)
      else Ok(1)
    else if nodeIndex >= |nodes| then Err(IndexOutOfRange)
    else
      var front :- CountVisLeafs(nodes, leafs, nodes[nodeIndex].children[0]);
      var back :- CountVisLeafs(nodes, leafs, nodes[nodeIndex].children[1]);
      Ok(ToInt32(front + back))
  }

  /** Every child index in range: node children index the nodes, leaf
      children the leafs. */
  predicate WellIndexed(nodes: seq<BspNode>, leafs: seq<BspLeaf>)
  {
    forall i, k :: 0 <= i < |nodes| && 0 <= k < 2 ==>
      (nodes[i].children[k] >= 0 ==> nodes[i].children[k] < |nodes|)
      && (nodes[i].children[k] < 0 ==> ChildLeaf(nodes[i].children[k]) < |leafs|)
  }

  /** The leaf children reached from a child value, left to right. */
  function LeafRefs(nodes: seq<BspNode>, child: int): (r: seq<int>)
    requires Ordered(nodes)
    ensures forall j :: 0 <= j < |r| ==> r[j] < 0
    decreases Rank(nodes, child)
  {
    if child < 0 then [child]
    else if child >= |nodes| then []
    else LeafRefs(nodes, nodes[child].children[0]) + LeafRefs(nodes, nodes[child].children[1])
  }

  /** A leaf reference that CountVisLeafs counts: not leaf 0, not solid. */
  predicate Counted(leafs: seq<BspLeaf>, child: int)
    requires child < 0
  {
    child != -1 && ChildLeaf(child) < |leafs| && leafs[ChildLeaf(child)].contents != CONTENTS_SOLID
  }

  /** How many of the references are counted. */
  function CountedRefs(leafs: seq<BspLeaf>, refs: seq<int>): (n: nat)
    requires forall j :: 0 <= j < |refs| ==> refs[j] < 0
    ensures n <= |refs|
  {
    if refs == [] then 0
    else CountedRefs(leafs, refs[..|refs| - 1]) + if Counted(leafs, refs[|refs| - 1]) then 1 else 0
  }

  lemma {:induction false} CountedRefsAppend(leafs: seq<BspLeaf>, a: seq<int>, b: seq<int>)
    requires forall j :: 0 <= j < |a| ==> a[j] < 0
    requires forall j :: 0 <= j < |b| ==> b[j] < 0
    ensures CountedRefs(leafs, a + b) == CountedRefs(leafs, a) + CountedRefs(leafs, b)
    decreases |b|
  {
    if b == [] {
      assert a + b == a;
    } else {
      var b' := b[..|b| - 1];
      assert (a + b)[..|a + b| - 1] == a + b';
      assert (a + b)[|a + b| - 1] == b[|b| - 1];
      CountedRefsAppend(leafs, a, b');
    }
  }

  /** A leaf child counts 1 exactly when it is counted. */
  lemma CountsLeafChild(nodes: seq<BspNode>, leafs: seq<BspLeaf>, child: int)
    requires Ordered(nodes)
    requires child < 0 && ChildLeaf(child) < |leafs|
    ensures CountVisLeafs(nodes, leafs, child) == Ok(CountedRefs(leafs, LeafRefs(nodes, child)))
  {
    assert LeafRefs(nodes, child) == [child];
    assert [child][..0] == [];
    assert CountedRefs(leafs, [child]) == if Counted(leafs, child) then 1 else 0;
  }

  /** The children of a node of a well-indexed tree are in range. */
  lemma ChildrenInRange(nodes: seq<BspNode>, leafs: seq<BspLeaf>, i: int, k: int)
    requires WellIndexed(nodes, leafs) && 0 <= i < |nodes| && 0 <= k < 2
    ensures nodes[i].children[k] < |nodes|
    ensures nodes[i].children[k] < 0 ==> ChildLeaf(nodes[i].children[k]) < |leafs|
  {
  }

  /** CountVisLeafs counts exactly the leaves of the subtree that are neither
      leaf 0 nor solid, as long as that count does not overflow an int. */
  lemma {:induction false} CountVisLeafsCountsLeaves(nodes: seq<BspNode>, leafs: seq<BspLeaf>, child: int)
    requires Ordered(nodes) && WellIndexed(nodes, leafs)
    requires child < |nodes|
    requires child < 0 ==> ChildLeaf(child) < |leafs|
    requires |LeafRefs(nodes, child)| < TWO_POW_31
    ensures CountVisLeafs(nodes, leafs, child) == Ok(CountedRefs(leafs, LeafRefs(nodes, child)))
    decreases Rank(nodes, child)
  {
    if child < 0 {
      CountsLeafChild(nodes, leafs, child);
    } else {
      var c0 := nodes[child].children[0];
      var c1 := nodes[child].children[1];
      ChildrenInRange(nodes, leafs, child, 0);
      ChildrenInRange(nodes, leafs, child, 1);
      var refs0 := LeafRefs(nodes, c0);
      var refs1 := LeafRefs(nodes, c1);
      assert LeafRefs(nodes, child) == refs0 + refs1;
      CountVisLeafsCountsLeaves(nodes, leafs, c0);
      CountVisLeafsCountsLeaves(nodes, leafs, c1);
      CountedRefsAppend(leafs, refs0, refs1);
      var a := CountedRefs(leafs, refs0);
      var b := CountedRefs(leafs, refs1);
      assert CountVisLeafs(nodes, leafs, child) == Ok(ToInt32(a + b));
    }
  }

  // ---------------------------------------------------------------------
  // Decompressing one leaf's list

  /** The decoding loop of GetPVS from byte `cur` with write index `w`: a
      zero byte followed by n skips 8n entries; any other byte advances
      the index by 8 and, since only the first mask (0x01) can make
      `byte & mask` equal 1, sets just the entry at the index, and only
      for an odd byte.  The loop ends once the index reaches visLeaves;
      reading past the data or writing outside the list fails.  The index
      is an unchecked int32. */
  function Decompress(c: seq<byte>, cur: nat, w: int, visLeaves: int, list: seq<bool>): (r: Result<seq<bool>>)
    ensures r.Ok? ==> |r.value| == |list|
    decreases |c| - cur
  {
    if w >= visLeaves then Ok(list)
    else if cur >= |c| then Err(IndexOutOfRange)
    else if c[cur] == 0 then
      if cur + 1 >= |c| then Err(IndexOutOfRange)
      else Decompress(c, cur + 2, ToInt32(w + 8 * (c[cur + 1] as int)), visLeaves, list)
    else if c[cur] % 2 == 1 then
      if w < 0 || w >= |list| then Err(IndexOutOfRange)
      else Decompress(c, cur + 1, ToInt32(w + 8), visLeaves, list[w := true])
    else Decompress(c, cur + 1, ToInt32(w + 8), visLeaves, list)
  }

  /** The mask GetPVS tests a byte with after `bit` shifts. */
  function Mask(bit: nat): bv16
    requires bit <= 8
  {
    (1 as bv16) << bit
  }

  /** The bit test of GetPVS: `byte & mask` equals 1 only for the first
      mask and an odd byte; shifting moves the mask to the next bit, and it
      reaches 0x100 after the eighth. */
  lemma MaskFacts(b: byte, bit: nat)
    requires bit < 8
    ensures ((b as bv16) & Mask(bit) == 1) <==> (bit == 0 && b % 2 == 1)
    ensures Mask(bit) << 1 == Mask(bit + 1)
    ensures Mask(bit + 1) == 0x100 <==> bit == 7
  {
  }

  /** The residue modulo 8 read off a decomposition. */
  lemma LaneOf(x: int, k: int, l: int)
    requires 0 <= l < 8 && x == 8 * k + l
    ensures x % 8 == l
  {
  }

  /** Advancing the write index by whole bytes (8n entries) with unchecked
      int32 addition keeps its residue modulo 8. */
  lemma AdvanceKeepsLane(w: int, n: int)
    ensures ToInt32(w + 8 * n) % 8 == w % 8
  {
    var l := w % 8;
    var k := w / 8;
    var x := w + 8 * n;
    assert x == 8 * (k + n) + l;
    var q := x / TWO_POW_32;
    var m := x % TWO_POW_32;
    assert m == 8 * (k + n - 0x2000_0000 * q) + l;
    if m >= TWO_POW_31 {
      LaneOf(m - TWO_POW_32, k + n - 0x2000_0000 * q - 0x2000_0000, l);
    } else {
      LaneOf(m, k + n - 0x2000_0000 * q, l);
    }
  }

  /** Decoding only ever sets entries, and only entries below visLeaves
      whose index is congruent to the starting write index modulo 8: from
      the start of a list, every eighth entry at most. */
  lemma {:induction false} DecompressSetsOnly(c: seq<byte>, cur: nat, w: int, visLeaves: int, list: seq<bool>)
    requires Decompress(c, cur, w, visLeaves, list).Ok?
    ensures forall j :: 0 <= j < |list| && list[j] ==> Decompress(c, cur, w, visLeaves, list).value[j]
    ensures forall j :: 0 <= j < |list| && Decompress(c, cur, w, visLeaves, list).value[j] && !list[j] ==>
      j < visLeaves && j % 8 == w % 8
    decreases |c| - cur
  {
    if w < visLeaves {
      var r := Decompress(c, cur, w, visLeaves, list).value;
      if c[cur] == 0 {
        var w' := ToInt32(w + 8 * (c[cur + 1] as int));
        AdvanceKeepsLane(w, c[cur + 1] as int);
        assert r == Decompress(c, cur + 2, w', visLeaves, list).value;
        DecompressSetsOnly(c, cur + 2, w', visLeaves, list);
        assert w' % 8 == w % 8;
      } else {
        var w' := ToInt32(w + 8);
        AdvanceKeepsLane(w, 1);
        var next := if c[cur] % 2 == 1 then list[w := true] else list;
        assert r == Decompress(c, cur + 1, w', visLeaves, next).value;
        DecompressSetsOnly(c, cur + 1, w', visLeaves, next);
        assert w' % 8 == w % 8;
        forall j | 0 <= j < |list| && r[j] && !list[j]
          ensures j < visLeaves && j % 8 == w % 8
        {
          if next[j] {
            assert j == w;
          }
        }
      }
    }
  }

  /** Bytes after those the loop consumes do not matter. */
  lemma {:induction false} DecompressIgnoresTrailing(c: seq<byte>, extra: seq<byte>, cur: nat, w: int, visLeaves: int, list: seq<bool>)
    requires Decompress(c, cur, w, visLeaves, list).Ok?
    ensures Decompress(c + extra, cur, w, visLeaves, list) == Decompress(c, cur, w, visLeaves, list)
    decreases |c| - cur
  {
    var ce := c + extra;
    if w < visLeaves {
      assert ce[cur] == c[cur];
      if c[cur] == 0 {
        assert ce[cur + 1] == c[cur + 1];
        DecompressIgnoresTrailing(c, extra, cur + 2, ToInt32(w + 8 * (c[cur + 1] as int)), visLeaves, list);
      } else if c[cur] % 2 == 1 {
        DecompressIgnoresTrailing(c, extra, cur + 1, ToInt32(w + 8), visLeaves, list[w := true]);
      } else {
        DecompressIgnoresTrailing(c, extra, cur + 1, ToInt32(w + 8), visLeaves, list);
      }
    }
  }

  function AllFalse(n: nat): (r: seq<bool>)
    ensures |r| == n && forall j :: 0 <= j < n ==> !r[j]
  {
    seq(n, _ => false)
  }

  /** `FF 00 02 01` for 24 leaves: 0xFF sets entry 0 only, the run `00 02`
      skips entries 8..23, and the loop stops before the trailing byte. */
  lemma DecompressExample()
    ensures Decompress([0xFF, 0x00, 0x02, 0x01], 0, 0, 24, AllFalse(24)) == Ok(AllFalse(24)[0 := true])
  {
    var c: seq<byte> := [0xFF, 0x00, 0x02, 0x01];
    var l := AllFalse(24);
    assert Decompress(c, 3, 24, 24, l[0 := true]) == Ok(l[0 := true]);
    assert Decompress(c, 1, 8, 24, l[0 := true]) == Decompress(c, 3, 24, 24, l[0 := true]);
  }

  /** `02` for 8 leaves: the byte marks leaf 1 as visible, but the test
      against 1 sees no bit and the list stays all false. */
  lemma EvenByteSetsNothing()
    ensures Decompress([0x02], 0, 0, 8, AllFalse(8)) == Ok(AllFalse(8))
  {
    var c: seq<byte> := [0x02];
    assert Decompress(c, 1, 8, 8, AllFalse(8)) == Ok(AllFalse(8));
  }

  // ---------------------------------------------------------------------
  // GetPVS and LoadVis

  /** GetPVS(leafIndex, visLeaves): a list of Leafs-1 false entries, decoded
      from the bytes at the start of the vis lump, as many as the lump
      offset plus the leaf's vis offset says (not from the leaf's own
      offset). */
  function PVS(d: seq<byte>, visLump: BspLump, leafs: seq<BspLeaf>, leafIndex: int, visLeaves: int): (r: Result<seq<bool>>)
    ensures r.Ok? ==> |r.value| == |leafs| - 1
    ensures |leafs| == 0 ==> r == Err(Overflow)
  {
    if |leafs| == 0 then Err(Overflow)
    else if leafIndex < 0 || leafIndex >= |leafs| then Err(IndexOutOfRange)
    else
      var compressed :- LumpBytes(d, visLump.offset, ToInt32(visLump.offset + leafs[leafIndex].visOffset));
      Decompress(compressed, 0, 0, visLeaves, AllFalse(|leafs| - 1))
  }

  /** The entries of LoadVis from entry i on: entry i is the list of leaf
      i+1, or none when that leaf has a negative vis offset. */
  function VisEntries(d: seq<byte>, visLump: BspLump, leafs: seq<BspLeaf>, visLeaves: int, i: nat)
    : (r: Result<seq<Option<seq<bool>>>>)
    ensures r.Ok? ==> |r.value| == if i < visLeaves then visLeaves - i else 0
    decreases visLeaves - i
  {
    if i >= visLeaves then Ok([])
    else if i + 1 >= |leafs| then Err(IndexOutOfRange)
    else
      var entry :- if leafs[i + 1].visOffset >= 0 then
                     var pvs :- PVS(d, visLump, leafs, i + 1, visLeaves); Ok(Some(pvs))
                   else Ok(None);
      var rest :- VisEntries(d, visLump, leafs, visLeaves, i + 1);
      Ok([entry] + rest)
  }

  /** LoadVis: nothing for an empty vis lump, else one entry per counted
      leaf. */
  function VisLists(d: seq<byte>, visLump: BspLump, visData: seq<byte>, nodes: seq<BspNode>, leafs: seq<BspLeaf>)
    : (r: Result<Option<seq<Option<seq<bool>>>>>)
    requires Ordered(nodes)
    ensures |visData| == 0 ==> r == Ok(None)
  {
    if |visData| == 0 then Ok(None)
    else
      var visLeaves :- CountVisLeafs(nodes, leafs, 0);
      if visLeaves < 0 then Err(Overflow)
      else
        var entries :- VisEntries(d, visLump, leafs, visLeaves, 0);
        Ok(Some(entries))
  }

  /** Entry j of the table is missing exactly when leaf i+j+1 has a negative
      vis offset; otherwise it is that leaf's decoded list. */
  lemma {:induction false} VisEntriesShape(d: seq<byte>, visLump: BspLump, leafs: seq<BspLeaf>, visLeaves: int, i: nat)
    requires VisEntries(d, visLump, leafs, visLeaves, i).Ok?
    ensures i < visLeaves ==> visLeaves < |leafs|
    ensures forall j :: 0 <= j < |VisEntries(d, visLump, leafs, visLeaves, i).value| ==>
      i + j + 1 < |leafs|
      && (VisEntries(d, visLump, leafs, visLeaves, i).value[j].None? <==> leafs[i + j + 1].visOffset < 0)
      && (VisEntries(d, visLump, leafs, visLeaves, i).value[j].Some? ==>
            PVS(d, visLump, leafs, i + j + 1, visLeaves) == Ok(VisEntries(d, visLump, leafs, visLeaves, i).value[j].value))
    decreases visLeaves - i
  {
    if i >= visLeaves {
      assert VisEntries(d, visLump, leafs, visLeaves, i).value == [];
    } else {
      var r := VisEntries(d, visLump, leafs, visLeaves, i).value;
      VisEntriesShape(d, visLump, leafs, visLeaves, i + 1);
      var rest := VisEntries(d, visLump, leafs, visLeaves, i + 1).value;
      assert r[1..] == rest;
      assert i + 1 < |leafs|;
      forall j | 0 <= j < |r|
        ensures (r[j].None? <==> leafs[i + j + 1].visOffset < 0)
          && (r[j].Some? ==> PVS(d, visLump, leafs, i + j + 1, visLeaves) == Ok(r[j].value))
      {
        if j == 0 {
          if leafs[i + 1].visOffset >= 0 {
            assert r[0] == Some(PVS(d, visLump, leafs, i + 1, visLeaves).value);
          } else {
            assert r[0] == None;
          }
        } else {
          assert r[j] == rest[j - 1];
          assert (i + 1) + (j - 1) + 1 == i + j + 1;
        }
      }
    }
  }
}
