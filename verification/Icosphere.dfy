/** The level loop of consensus/obj-asteroid/src/icosphere.rs. Coordinates are of any type;
    `midpoint` stands for the normalised mean of two of them. */
module Icosphere {
  import opened Mesh
  import opened MeshCount

  const U32_SIZE: nat := 0x1_0000_0000

  function BaseFaces(): seq<Face> {
    [ Face(0, 11, 5), Face(0, 5, 1), Face(0, 1, 7), Face(0, 7, 10), Face(0, 10, 11),
      Face(1, 5, 9), Face(5, 11, 4), Face(11, 10, 2), Face(10, 7, 6), Face(7, 1, 8),
      Face(3, 9, 4), Face(3, 4, 2), Face(3, 2, 6), Face(3, 6, 8), Face(3, 8, 9),
      Face(4, 9, 5), Face(2, 4, 11), Face(6, 2, 10), Face(8, 6, 7), Face(9, 8, 1) ]
  }

  // ---- The icosahedron is closed ----------------------------------------------------------

  /** Where each directed edge of the icosahedron lies: its face and its side. */
  function BaseSlot(e: Edge): (nat, nat) {
    match e.tail
    case 0 => if e.head == 1 then (2, 0) else if e.head == 5 then (1, 0) else if e.head == 7 then (3, 0) else if e.head == 10 then (4, 0) else (0, 0)
    case 1 => if e.head == 0 then (1, 2) else if e.head == 5 then (5, 0) else if e.head == 7 then (2, 1) else if e.head == 8 then (9, 1) else (19, 2)
    case 2 => if e.head == 3 then (11, 2) else if e.head == 4 then (16, 0) else if e.head == 6 then (12, 1) else if e.head == 10 then (17, 1) else (7, 2)
    case 3 => if e.head == 2 then (12, 0) else if e.head == 4 then (11, 0) else if e.head == 6 then (13, 0) else if e.head == 8 then (14, 0) else (10, 0)
    case 4 => if e.head == 2 then (11, 1) else if e.head == 3 then (10, 2) else if e.head == 5 then (6, 2) else if e.head == 9 then (15, 0) else (16, 1)
    case 5 => if e.head == 0 then (0, 2) else if e.head == 1 then (1, 1) else if e.head == 4 then (15, 2) else if e.head == 9 then (5, 1) else (6, 0)
    case 6 => if e.head == 2 then (17, 0) else if e.head == 3 then (12, 2) else if e.head == 7 then (18, 1) else if e.head == 8 then (13, 1) else (8, 2)
    case 7 => if e.head == 0 then (2, 2) else if e.head == 1 then (9, 0) else if e.head == 6 then (8, 1) else if e.head == 8 then (18, 2) else (3, 1)
    case 8 => if e.head == 1 then (19, 1) else if e.head == 3 then (13, 2) else if e.head == 6 then (18, 0) else if e.head == 7 then (9, 2) else (14, 1)
    case 9 => if e.head == 1 then (5, 2) else if e.head == 3 then (14, 2) else if e.head == 4 then (10, 1) else if e.head == 5 then (15, 1) else (19, 0)
    case 10 => if e.head == 0 then (3, 2) else if e.head == 2 then (7, 1) else if e.head == 6 then (17, 2) else if e.head == 7 then (8, 0) else (4, 1)
    case 11 => if e.head == 0 then (4, 2) else if e.head == 2 then (16, 2) else if e.head == 4 then (6, 1) else if e.head == 5 then (0, 1) else (7, 0)
    case _ => (20, 0)
  }

  /** The same faces, one at a time. */
  function BaseFace(i: nat): Face {
    match i
    case 0 => Face(0, 11, 5) case 1 => Face(0, 5, 1) case 2 => Face(0, 1, 7) case 3 => Face(0, 7, 10)
    case 4 => Face(0, 10, 11) case 5 => Face(1, 5, 9) case 6 => Face(5, 11, 4) case 7 => Face(11, 10, 2)
    case 8 => Face(10, 7, 6) case 9 => Face(7, 1, 8) case 10 => Face(3, 9, 4) case 11 => Face(3, 4, 2)
    case 12 => Face(3, 2, 6) case 13 => Face(3, 6, 8) case 14 => Face(3, 8, 9) case 15 => Face(4, 9, 5)
    case 16 => Face(2, 4, 11) case 17 => Face(6, 2, 10) case 18 => Face(8, 6, 7) case 19 => Face(9, 8, 1)
    case _ => Face(0, 0, 0)
  }

  lemma BaseFacesAre(i: nat)
    requires i < 20
    ensures BaseFaces()[i] == BaseFace(i)
  {
  }

  lemma BaseSides(i: nat, k: nat)
    requires i < 20 && k < 3
    ensures BaseSlot(EdgeOf(BaseFace(i), k)) == (i, k)
  {
  }

  lemma BaseReverses(i: nat, k: nat)
    requires i < 20 && k < 3
    ensures
      var e := Reverse(EdgeOf(BaseFace(i), k));
      BaseSlot(e).0 < 20 && BaseSlot(e).1 < 3 && EdgeOf(BaseFace(BaseSlot(e).0), BaseSlot(e).1) == e
  {
    if i < 10 {
      BaseReversesLow(i, k);
    } else if i < 15 {
      BaseReversesMiddle(i, k);
    } else {
      BaseReversesHigh(i, k);
    }
  }

  lemma BaseReversesLow(i: nat, k: nat)
    requires i < 10 && k < 3
    ensures
      var e := Reverse(EdgeOf(BaseFace(i), k));
      BaseSlot(e).0 < 20 && BaseSlot(e).1 < 3 && EdgeOf(BaseFace(BaseSlot(e).0), BaseSlot(e).1) == e
  {
  }

  lemma BaseReversesMiddle(i: nat, k: nat)
    requires 10 <= i < 15 && k < 3
    ensures
      var e := Reverse(EdgeOf(BaseFace(i), k));
      BaseSlot(e).0 < 20 && BaseSlot(e).1 < 3 && EdgeOf(BaseFace(BaseSlot(e).0), BaseSlot(e).1) == e
  {
  }

  lemma BaseReversesHigh(i: nat, k: nat)
    requires 15 <= i < 20 && k < 3
    ensures
      var e := Reverse(EdgeOf(BaseFace(i), k));
      BaseSlot(e).0 < 20 && BaseSlot(e).1 < 3 && EdgeOf(BaseFace(BaseSlot(e).0), BaseSlot(e).1) == e
  {
  }

  /** Two neighbours across different sides of a face are different faces. */
  lemma BaseNeighbours(i: nat)
    requires i < 20
    ensures BaseSlot(Reverse(EdgeOf(BaseFace(i), 0))).0 != BaseSlot(Reverse(EdgeOf(BaseFace(i), 1))).0
  {
  }

  /** Two faces on the same three corners share a directed edge, or each has all the reversed
      edges of the other. */
  lemma SameCorners(f: Face, g: Face)
    requires Corners(f) == Corners(g)
    requires f.a != f.b && f.b != f.c && f.c != f.a && g.a != g.b && g.b != g.c && g.c != g.a
    ensures
      || EdgeOf(g, 0) == EdgeOf(f, 0) || EdgeOf(g, 1) == EdgeOf(f, 0) || EdgeOf(g, 2) == EdgeOf(f, 0)
      || (exists k, l :: 0 <= k < 3 && 0 <= l < 3
            && EdgeOf(g, k) == Reverse(EdgeOf(f, 0)) && EdgeOf(g, l) == Reverse(EdgeOf(f, 1)))
  {
    assert g.a in Corners(f) && g.b in Corners(f) && g.c in Corners(f);
    assert f.a in Corners(g) && f.b in Corners(g) && f.c in Corners(g);
    if g.a == f.b && g.b == f.a {
      assert EdgeOf(g, 0) == Reverse(EdgeOf(f, 0)) && EdgeOf(g, 2) == Reverse(EdgeOf(f, 1));
    } else if g.b == f.b && g.c == f.a {
      assert EdgeOf(g, 1) == Reverse(EdgeOf(f, 0)) && EdgeOf(g, 0) == Reverse(EdgeOf(f, 1));
    } else if g.c == f.b && g.a == f.a {
      assert EdgeOf(g, 2) == Reverse(EdgeOf(f, 0)) && EdgeOf(g, 1) == Reverse(EdgeOf(f, 1));
    }
  }

  lemma BaseCorners(i: nat, j: nat)
    requires i < 20 && j < 20 && Corners(BaseFace(i)) == Corners(BaseFace(j))
    ensures i == j
  {
    var f, g := BaseFace(i), BaseFace(j);
    BaseProper(i);
    BaseProper(j);
    SameCorners(f, g);
    BaseSides(i, 0);
    BaseSides(j, 0);
    BaseSides(j, 1);
    BaseSides(j, 2);
    BaseNeighbours(i);
  }

  lemma BaseProper(i: nat)
    requires i < 20
    ensures var f := BaseFace(i); f.a < 12 && f.b < 12 && f.c < 12 && f.a != f.b && f.b != f.c && f.c != f.a
  {
  }

  /** The twenty faces of the icosahedron are a closed surface on its twelve vertices. */
  lemma BaseClosed()
    ensures Closed(BaseFaces(), 12)
  {
    var faces := BaseFaces();
    forall i | 0 <= i < |faces| ensures faces[i] == BaseFace(i) {
      BaseFacesAre(i);
    }
    forall i | 0 <= i < |faces|
      ensures faces[i].a < 12 && faces[i].b < 12 && faces[i].c < 12
      ensures faces[i].a != faces[i].b && faces[i].b != faces[i].c && faces[i].c != faces[i].a
    {
      BaseProper(i);
    }
    forall i, k, j, l | 0 <= i < |faces| && 0 <= k < 3 && 0 <= j < |faces| && 0 <= l < 3
                     && EdgeOf(faces[i], k) == EdgeOf(faces[j], l)
      ensures i == j && k == l
    {
      BaseSides(i, k);
      BaseSides(j, l);
    }
    forall i, k | 0 <= i < |faces| && 0 <= k < 3 ensures HasReverse(faces, i, k) {
      BaseReverses(i, k);
      var slot := BaseSlot(Reverse(EdgeOf(faces[i], k)));
      assert EdgeOf(faces[slot.0], slot.1) == Reverse(EdgeOf(faces[i], k));
    }
    forall i, j | 0 <= i < |faces| && 0 <= j < |faces| && Corners(faces[i]) == Corners(faces[j]) ensures i == j {
      BaseCorners(i, j);
    }
  }

  // ---- One level --------------------------------------------------------------------------

  /** Every cached vertex sits at the midpoint of the edge it is cached for. */
  ghost predicate Placed<C>(vertices: seq<C>, cache: map<(nat, nat), nat>, midpoint: (C, C) -> C) {
    forall key {:trigger cache[key]} | key in cache ::
      && key.0 < |vertices| && key.1 < |vertices| && cache[key] < |vertices|
      && ( || vertices[cache[key]] == midpoint(vertices[key.0], vertices[key.1])
           || vertices[cache[key]] == midpoint(vertices[key.1], vertices[key.0]))
  }

  /** A vertex halfway between two earlier ones. */
  ghost predicate IsMidpoint<C>(vertices: seq<C>, v: nat, midpoint: (C, C) -> C)
    requires v < |vertices|
  {
    exists a, b :: 0 <= a < v && 0 <= b < v && vertices[v] == midpoint(vertices[a], vertices[b])
  }

  ghost predicate MidpointsFrom<C>(vertices: seq<C>, count: nat, midpoint: (C, C) -> C) {
    forall v | count <= v < |vertices| :: IsMidpoint(vertices, v, midpoint)
  }

  /** The state of a level that started with `count` vertices. */
  ghost predicate LevelState<C>(count: nat, vertices: seq<C>, cache: map<(nat, nat), nat>, midpoint: (C, C) -> C) {
    && |vertices| == count + |cache| && Fresh(count, cache) && Placed(vertices, cache, midpoint)
    && MidpointsFrom(vertices, count, midpoint)
  }

  /** More vertices after them do not move the midpoints there are. */
  lemma MidpointsStay<C>(vertices: seq<C>, longer: seq<C>, count: nat, midpoint: (C, C) -> C)
    requires vertices <= longer && MidpointsFrom(vertices, count, midpoint)
    ensures forall v | count <= v < |vertices| :: IsMidpoint(longer, v, midpoint)
  {
    forall v | count <= v < |vertices| ensures IsMidpoint(longer, v, midpoint) {
      assert IsMidpoint(vertices, v, midpoint);
      var a, b :| 0 <= a < v && 0 <= b < v && vertices[v] == midpoint(vertices[a], vertices[b]);
      assert longer[v] == midpoint(longer[a], longer[b]);
    }
  }

  ghost predicate Extends(before: map<(nat, nat), nat>, after: map<(nat, nat), nat>) {
    forall key {:trigger before[key]} {:trigger after[key]} | key in before :: key in after && after[key] == before[key]
  }

  /** The vertex halfway along an edge: the cached one, or a new one with the next 32-bit index. */
  method GetMid<C>(a: nat, b: nat, vertices: seq<C>, cache: map<(nat, nat), nat>, midpoint: (C, C) -> C, ghost count: nat)
      returns (idx: nat, vertices': seq<C>, cache': map<(nat, nat), nat>)
    requires a < |vertices| && b < |vertices|
    requires Key(Edge(a, b)) in cache || |vertices| < U32_SIZE
    requires LevelState(count, vertices, cache, midpoint)
    ensures LevelState(count, vertices', cache', midpoint)
    ensures vertices <= vertices' && Extends(cache, cache')
    ensures cache'.Keys == cache.Keys + {Key(Edge(a, b))}
    ensures idx == cache'[Key(Edge(a, b))]
  {
    var key := if a < b then (a, b) else (b, a);
    if key in cache {
      return cache[key], vertices, cache;
    }
    var mid := midpoint(vertices[a], vertices[b]);
    idx := |vertices| % U32_SIZE;
    assert idx == |vertices|;
    vertices' := vertices + [mid];
    cache' := cache[key := idx];
    AddMid(a, b, vertices, cache, midpoint, count);
  }

  lemma AddMid<C>(a: nat, b: nat, vertices: seq<C>, cache: map<(nat, nat), nat>, midpoint: (C, C) -> C, count: nat)
    requires a < |vertices| && b < |vertices| && Key(Edge(a, b)) !in cache
    requires LevelState(count, vertices, cache, midpoint)
    ensures LevelState(count, vertices + [midpoint(vertices[a], vertices[b])], cache[Key(Edge(a, b)) := |vertices|], midpoint)
  {
    var vertices' := vertices + [midpoint(vertices[a], vertices[b])];
    var added := Key(Edge(a, b));
    var cache' := cache[added := |vertices|];
    AddFresh(count, cache, added);
    MidpointsStay(vertices, vertices', count, midpoint);
    assert vertices'[|vertices|] == midpoint(vertices'[a], vertices'[b]);
    assert IsMidpoint(vertices', |vertices|, midpoint);
    forall key | key in cache'
      ensures key.0 < |vertices'| && key.1 < |vertices'| && cache'[key] < |vertices'|
      ensures || vertices'[cache'[key]] == midpoint(vertices'[key.0], vertices'[key.1])
              || vertices'[cache'[key]] == midpoint(vertices'[key.1], vertices'[key.0])
    {
      if key != added {
        assert cache'[key] == cache[key] < |vertices|;
      }
    }
  }

  lemma AddFresh(count: nat, cache: map<(nat, nat), nat>, added: (nat, nat))
    requires Fresh(count, cache) && added !in cache
    ensures Fresh(count, cache[added := count + |cache|])
    ensures |cache[added := count + |cache|]| == |cache| + 1
  {
    var cache' := cache[added := count + |cache|];
    assert |cache'| == |cache| + 1;
    forall x, y | x in cache' && y in cache' && cache'[x] == cache'[y] ensures x == y {
      assert x != added ==> cache'[x] == cache[x] < count + |cache|;
      assert y != added ==> cache'[y] == cache[y] < count + |cache|;
    }
    forall key | key in cache' ensures count <= cache'[key] < count + |cache'| {
      assert key != added ==> cache'[key] == cache[key] < count + |cache|;
    }
  }

  /** A key the level has yet to meet still has an index that fits 32 bits. */
  lemma RoomForKey(faces: seq<Face>, cache: map<(nat, nat), nat>, key: (nat, nat))
    requires cache.Keys <= Keys(faces) && key in Keys(faces)
    ensures key in cache || |cache| < |Keys(faces)|
  {
    if key !in cache {
      SubsetSize(cache.Keys + {key}, Keys(faces));
    }
  }

  lemma {:induction false} SubsetSize(small: set<(nat, nat)>, large: set<(nat, nat)>)
    requires small <= large
    ensures |small| <= |large|
  {
    if small != {} {
      var x :| x in small;
      SubsetSize(small - {x}, large - {x});
    }
  }

  /** The four children of a face. */
  function Quad(f: Face, cache: map<(nat, nat), nat>): seq<Face>
    requires HasMids(cache, f)
  {
    [Child(f, cache, 0), Child(f, cache, 1), Child(f, cache, 2), Child(f, cache, 3)]
  }

  method SplitFace<C>(faces: seq<Face>, i: nat, vertices: seq<C>, cache: map<(nat, nat), nat>, midpoint: (C, C) -> C,
                      ghost count: nat)
      returns (quad: seq<Face>, vertices': seq<C>, cache': map<(nat, nat), nat>)
    requires i < |faces| && Proper(faces, count)
    requires count + |Keys(faces)| <= U32_SIZE && cache.Keys <= Keys(faces)
    requires LevelState(count, vertices, cache, midpoint)
    ensures LevelState(count, vertices', cache', midpoint)
    ensures vertices <= vertices' && Extends(cache, cache') && cache'.Keys <= Keys(faces)
    ensures HasMids(cache', faces[i])
    ensures quad == Quad(faces[i], cache')
  {
    var f := faces[i];
    assert Key(EdgeOf(f, 0)) in Keys(faces) && Key(EdgeOf(f, 1)) in Keys(faces) && Key(EdgeOf(f, 2)) in Keys(faces);
    RoomForKey(faces, cache, Key(EdgeOf(f, 0)));
    var a, vertices1, cache1 := GetMid(f.a, f.b, vertices, cache, midpoint, count);
    RoomForKey(faces, cache1, Key(EdgeOf(f, 1)));
    var b, vertices2, cache2 := GetMid(f.b, f.c, vertices1, cache1, midpoint, count);
    RoomForKey(faces, cache2, Key(EdgeOf(f, 2)));
    var c;
    c, vertices', cache' := GetMid(f.c, f.a, vertices2, cache2, midpoint, count);
    quad := [Face(f.a, a, c), Face(f.b, b, a), Face(f.c, c, b), Face(a, b, c)];
    ThreeMids(f, a, b, c, cache1, cache2, cache');
    ExtendsTwice(cache, cache1, cache2, cache');
    PrefixTwice(vertices, vertices1, vertices2, vertices');
  }

  lemma PrefixTwice<C>(a: seq<C>, b: seq<C>, c: seq<C>, d: seq<C>)
    requires a <= b && b <= c && c <= d
    ensures a <= d
  {
  }

  lemma ExtendsTwice(cache: map<(nat, nat), nat>, cache1: map<(nat, nat), nat>, cache2: map<(nat, nat), nat>,
                     cache3: map<(nat, nat), nat>)
    requires Extends(cache, cache1) && Extends(cache1, cache2) && Extends(cache2, cache3)
    ensures Extends(cache, cache3)
  {
  }

  lemma ThreeMids(f: Face, a: nat, b: nat, c: nat, cache1: map<(nat, nat), nat>, cache2: map<(nat, nat), nat>,
                  cache3: map<(nat, nat), nat>)
    requires Extends(cache1, cache2) && Extends(cache2, cache3)
    requires Key(EdgeOf(f, 0)) in cache1 && cache1[Key(EdgeOf(f, 0))] == a
    requires Key(EdgeOf(f, 1)) in cache2 && cache2[Key(EdgeOf(f, 1))] == b
    requires Key(EdgeOf(f, 2)) in cache3 && cache3[Key(EdgeOf(f, 2))] == c
    ensures HasMids(cache3, f)
    ensures Quad(f, cache3) == [Face(f.a, a, c), Face(f.b, b, a), Face(f.c, c, b), Face(a, b, c)]
  {
  }

  ghost predicate SplitAt(f: Face, cache: map<(nat, nat), nat>, children: seq<Face>, j: nat, k: nat)
    requires k < 4 && 4 * j + k < |children|
  {
    HasMids(cache, f) && ChildAt(children, j, k) == Child(f, cache, k)
  }

  ghost predicate SplitUpTo(faces: seq<Face>, i: nat, cache: map<(nat, nat), nat>, children: seq<Face>)
    requires i <= |faces|
  {
    && |children| == 4 * i
    && (forall j, k | 0 <= j < i && 0 <= k < 4 :: SplitAt(faces[j], cache, children, j, k))
  }

  lemma SplitOneMore(faces: seq<Face>, i: nat, cache: map<(nat, nat), nat>, children: seq<Face>,
                     cache': map<(nat, nat), nat>)
    requires i < |faces| && SplitUpTo(faces, i, cache, children)
    requires Extends(cache, cache') && HasMids(cache', faces[i])
    ensures SplitUpTo(faces, i + 1, cache', children + Quad(faces[i], cache'))
  {
    var quad := Quad(faces[i], cache');
    forall j, k | 0 <= j < i + 1 && 0 <= k < 4 ensures SplitAt(faces[j], cache', children + quad, j, k) {
      if j < i {
        assert SplitAt(faces[j], cache, children, j, k);
        ChildKept(faces[j], cache, cache', k);
      } else {
        assert ChildAt(children + quad, j, k) == quad[k];
      }
    }
  }

  lemma ChildKept(f: Face, cache: map<(nat, nat), nat>, cache': map<(nat, nat), nat>, k: nat)
    requires Extends(cache, cache') && HasMids(cache, f) && k < 4
    ensures HasMids(cache', f) && Child(f, cache', k) == Child(f, cache, k)
  {
  }

  /** One subdivision level. The cache ends with one midpoint for each edge, three for every
      two faces, and the four times as many faces are a closed surface again. */
  method Subdivide<C>(vertices: seq<C>, faces: seq<Face>, midpoint: (C, C) -> C)
      returns (vertices': seq<C>, faces': seq<Face>, cache: map<(nat, nat), nat>)
    requires Closed(faces, |vertices|)
    requires 2 * |vertices| + 3 * |faces| <= 2 * U32_SIZE
    ensures vertices <= vertices' && |vertices'| == |vertices| + |cache|
    ensures Placed(vertices', cache, midpoint) && MidpointsFrom(vertices', |vertices|, midpoint)
    ensures Welded(faces, |vertices|, cache) && 2 * |cache| == 3 * |faces|
    ensures Subdivides(faces, cache, faces') && |faces'| == 4 * |faces|
    ensures Closed(faces', |vertices'|)
  {
    EdgeCount(faces, |vertices|);
    vertices', faces', cache := vertices, [], map[];
    for i := 0 to |faces|
      invariant LevelState(|vertices|, vertices', cache, midpoint)
      invariant vertices <= vertices' && cache.Keys <= Keys(faces)
      invariant SplitUpTo(faces, i, cache, faces')
    {
      ghost var before := cache;
      var quad;
      quad, vertices', cache := SplitFace(faces, i, vertices', cache, midpoint, |vertices|);
      SplitOneMore(faces, i, before, faces', cache);
      faces' := faces' + quad;
    }
    LevelDone(faces, cache, faces');
    SubdivisionCloses(faces, |vertices|, cache, faces');
  }

  lemma LevelDone(faces: seq<Face>, cache: map<(nat, nat), nat>, children: seq<Face>)
    requires SplitUpTo(faces, |faces|, cache, children) && cache.Keys <= Keys(faces)
    ensures Subdivides(faces, cache, children) && cache.Keys == Keys(faces) && |cache| == |Keys(faces)|
  {
    forall i | 0 <= i < |faces| ensures HasMids(cache, faces[i]) {
      assert SplitAt(faces[i], cache, children, i, 0);
    }
    forall i, k {:trigger ChildAt(children, i, k)} | 0 <= i < |faces| && 0 <= k < 4
      ensures HasMids(cache, faces[i]) && ChildAt(children, i, k) == Child(faces[i], cache, k)
    {
      assert SplitAt(faces[i], cache, children, i, k);
    }
    forall key | key in Keys(faces) ensures key in cache {
      var i, k :| 0 <= i < |faces| && 0 <= k < 3 && Key(EdgeOf(faces[i], k)) == key;
      assert HasMids(cache, faces[i]);
    }
    assert |cache| == |cache.Keys|;
  }

  /** One level leads to the next: a midpoint for every edge, welded and in its place, and every face
      split at its own. */
  ghost predicate Refines<C>(before: Level<C>, after: Level<C>, midpoint: (C, C) -> C) {
    exists cache :: RefinesBy(before, after, midpoint, cache)
  }

  ghost predicate RefinesBy<C>(before: Level<C>, after: Level<C>, midpoint: (C, C) -> C, cache: map<(nat, nat), nat>) {
    && before.vertices <= after.vertices && |after.vertices| == |before.vertices| + |cache|
    && Placed(after.vertices, cache, midpoint)
    && Welded(before.faces, |before.vertices|, cache) && Subdivides(before.faces, cache, after.faces)
  }

  datatype Level<C> = Level(vertices: seq<C>, faces: seq<Face>)

  // ---- All levels -------------------------------------------------------------------------

  function Pow4(n: nat): (r: nat)
    ensures r >= 1
  {
    if n == 0 then 1 else 4 * Pow4(n - 1)
  }

  lemma {:induction false} Pow4Monotone(m: nat, n: nat)
    requires m <= n
    ensures Pow4(m) <= Pow4(n)
    decreases n
  {
    if m < n {
      Pow4Monotone(m, n - 1);
    }
  }

  /** The icosphere after any number of subdivisions whose vertices fit 32-bit indices: a closed
      surface with exact counts and Euler characteristic two. `base` holds the twelve
      normalised icosahedron vertices. */
  method Icosphere<C>(subdivisions: nat, base: seq<C>, midpoint: (C, C) -> C)
      returns (vertices: seq<C>, faces: seq<Face>, ghost levels: seq<Level<C>>)
    requires |base| == 12
    requires 10 * Pow4(subdivisions) + 2 <= U32_SIZE
    ensures Closed(faces, |vertices|)
    ensures |faces| == 20 * Pow4(subdivisions) && |vertices| == 10 * Pow4(subdivisions) + 2
    ensures |vertices| - |Keys(faces)| + |faces| == 2
    ensures base <= vertices && MidpointsFrom(vertices, 12, midpoint)
    ensures |levels| == subdivisions + 1
    ensures levels[0] == Level(base, BaseFaces()) && levels[subdivisions] == Level(vertices, faces)
    ensures forall i | 0 <= i < subdivisions :: Refines(levels[i], levels[i + 1], midpoint)
  {
    vertices, faces := base, BaseFaces();
    levels := [Level(vertices, faces)];
    BaseClosed();
    for level := 0 to subdivisions
      invariant Closed(faces, |vertices|) && base <= vertices && MidpointsFrom(vertices, 12, midpoint)
      invariant |levels| == level + 1 && levels[0] == Level(base, BaseFaces()) && levels[level] == Level(vertices, faces)
      invariant forall i | 0 <= i < level :: Refines(levels[i], levels[i + 1], midpoint)
      invariant |faces| == 20 * Pow4(level) && |vertices| == 10 * Pow4(level) + 2
    {
      Pow4Monotone(level + 1, subdivisions);
      ghost var before := Level(vertices, faces);
      var cache;
      vertices, faces, cache := Subdivide(vertices, faces, midpoint);
      MidpointsStay(before.vertices, vertices, 12, midpoint);
      assert RefinesBy(before, Level(vertices, faces), midpoint, cache);
      levels := levels + [Level(vertices, faces)];
    }
    EdgeCount(faces, |vertices|);
  }
}
