/** Triangle meshes as index triples, and the combinatorics of one subdivision level of
    consensus/obj-asteroid/src/icosphere.rs. Vertex coordinates play no part here. */
module Mesh {

  datatype Face = Face(a: nat, b: nat, c: nat)

  /** A directed edge. */
  datatype Edge = Edge(tail: nat, head: nat)

  function Next(k: nat): (n: nat)
    requires k < 3
    ensures n < 3
  {
    if k == 2 then 0 else k + 1
  }

  function Prev(k: nat): (p: nat)
    requires k < 3
    ensures p < 3
  {
    if k == 0 then 2 else k - 1
  }

  function Corner(f: Face, k: nat): nat
    requires k < 3
  {
    if k == 0 then f.a else if k == 1 then f.b else f.c
  }

  function EdgeOf(f: Face, k: nat): Edge
    requires k < 3
  {
    Edge(Corner(f, k), Corner(f, Next(k)))
  }

  function Corners(f: Face): set<nat> {
    {f.a, f.b, f.c}
  }

  function Reverse(e: Edge): Edge {
    Edge(e.head, e.tail)
  }

  /** The cache key of an edge, the same for both directions. */
  function Key(e: Edge): (nat, nat) {
    if e.tail < e.head then (e.tail, e.head) else (e.head, e.tail)
  }

  // ---- Closed surfaces ------------------------------------------------------------------

  ghost predicate Proper(faces: seq<Face>, count: nat) {
    forall i | 0 <= i < |faces| ::
      && faces[i].a < count && faces[i].b < count && faces[i].c < count
      && faces[i].a != faces[i].b && faces[i].b != faces[i].c && faces[i].c != faces[i].a
  }

  /** No directed edge lies in two faces. */
  ghost predicate EdgesUnique(faces: seq<Face>) {
    forall i, k, j, l {:trigger EdgeOf(faces[i], k), EdgeOf(faces[j], l)}
      | 0 <= i < |faces| && 0 <= k < 3 && 0 <= j < |faces| && 0 <= l < 3
        && EdgeOf(faces[i], k) == EdgeOf(faces[j], l) :: i == j && k == l
  }

  ghost predicate HasEdge(faces: seq<Face>, e: Edge) {
    exists j, l :: 0 <= j < |faces| && 0 <= l < 3 && EdgeOf(faces[j], l) == e
  }

  ghost predicate HasReverse(faces: seq<Face>, i: nat, k: nat)
    requires i < |faces| && k < 3
  {
    HasEdge(faces, Reverse(EdgeOf(faces[i], k)))
  }

  ghost predicate ReversesPresent(faces: seq<Face>) {
    forall i, k | 0 <= i < |faces| && 0 <= k < 3 :: HasReverse(faces, i, k)
  }

  ghost predicate CornersUnique(faces: seq<Face>) {
    forall i, j {:trigger Corners(faces[i]), Corners(faces[j])}
      | 0 <= i < |faces| && 0 <= j < |faces| && Corners(faces[i]) == Corners(faces[j]) :: i == j
  }

  /** A closed, consistently oriented surface on `count` vertices: every directed edge lies in
      exactly one face, its reverse in exactly one other, and no two faces share all corners. */
  ghost predicate Closed(faces: seq<Face>, count: nat) {
    Proper(faces, count) && EdgesUnique(faces) && ReversesPresent(faces) && CornersUnique(faces)
  }

  /** The reverse of an edge is in one face, and it is another face. */
  lemma ReverseIsInAnotherFace(faces: seq<Face>, count: nat, i: nat, k: nat)
    requires Closed(faces, count) && i < |faces| && k < 3
    ensures exists j, l :: 0 <= j < |faces| && 0 <= l < 3 && j != i
                        && EdgeOf(faces[j], l) == Reverse(EdgeOf(faces[i], k))
    ensures forall j, l, j', l' {:trigger EdgeOf(faces[j], l), EdgeOf(faces[j'], l')}
      | 0 <= j < |faces| && 0 <= l < 3 && 0 <= j' < |faces| && 0 <= l' < 3
        && EdgeOf(faces[j], l) == Reverse(EdgeOf(faces[i], k)) == EdgeOf(faces[j'], l') :: j == j'
  {
    var e := EdgeOf(faces[i], k);
    assert HasReverse(faces, i, k);
    var j, l :| 0 <= j < |faces| && 0 <= l < 3 && EdgeOf(faces[j], l) == Reverse(e);
    assert j != i;
  }

  // ---- One level ------------------------------------------------------------------------

  /** The keys of all edges. */
  ghost function Keys(faces: seq<Face>): set<(nat, nat)> {
    set i, k {:trigger EdgeOf(faces[i], k)} | 0 <= i < |faces| && 0 <= k < 3 :: Key(EdgeOf(faces[i], k))
  }

  ghost predicate HasMids(mids: map<(nat, nat), nat>, f: Face) {
    forall k {:trigger EdgeOf(f, k)} | 0 <= k < 3 :: Key(EdgeOf(f, k)) in mids
  }

  ghost predicate AllHaveMids(faces: seq<Face>, mids: map<(nat, nat), nat>) {
    forall i | 0 <= i < |faces| :: HasMids(mids, faces[i])
  }

  function Mid(mids: map<(nat, nat), nat>, f: Face, k: nat): nat
    requires k < 3 && Key(EdgeOf(f, k)) in mids
  {
    mids[Key(EdgeOf(f, k))]
  }

  /** The four faces a face splits into: one at each corner, then the middle one. */
  function Child(f: Face, mids: map<(nat, nat), nat>, k: nat): Face
    requires k < 4 && HasMids(mids, f)
  {
    if k < 3 then
      Face(Corner(f, k), Mid(mids, f, k), Mid(mids, f, Prev(k)))
    else
      Face(Mid(mids, f, 0), Mid(mids, f, 1), Mid(mids, f, 2))
  }

  /** A finished midpoint cache of a level that started with `count` vertices: one fresh index
      for each edge, whichever direction it is asked in. */
  ghost predicate Welded(faces: seq<Face>, count: nat, mids: map<(nat, nat), nat>) {
    && mids.Keys == Keys(faces)
    && Fresh(count, mids)
  }

  ghost predicate Fresh(count: nat, mids: map<(nat, nat), nat>) {
    && (forall key {:trigger mids[key]} | key in mids :: count <= mids[key] < count + |mids|)
    && (forall x, y {:trigger mids[x], mids[y]} | x in mids && y in mids && mids[x] == mids[y] :: x == y)
  }

  /** `children` are the children of all faces, four to a face, in order. */
  ghost predicate Subdivides(faces: seq<Face>, mids: map<(nat, nat), nat>, children: seq<Face>) {
    && |children| == 4 * |faces|
    && AllHaveMids(faces, mids)
    && (forall i, k {:trigger ChildAt(children, i, k)} | 0 <= i < |faces| && 0 <= k < 4 ::
          HasMids(mids, faces[i]) && ChildAt(children, i, k) == Child(faces[i], mids, k))
  }

  function ChildAt(children: seq<Face>, i: nat, k: nat): Face
    requires k < 4 && 4 * i + k < |children|
  {
    children[4 * i + k]
  }

  /** Equal midpoints mean equal keys, and two keys of one face give all its corners. */
  lemma TwoMidsGiveCorners(faces: seq<Face>, count: nat, mids: map<(nat, nat), nat>,
                           i: nat, p: nat, q: nat, j: nat, p': nat, q': nat)
    requires Closed(faces, count) && Fresh(count, mids)
    requires i < |faces| && j < |faces| && p < 3 && q < 3 && p' < 3 && q' < 3 && p != q && p' != q'
    requires HasMids(mids, faces[i]) && HasMids(mids, faces[j])
    requires Mid(mids, faces[i], p) == Mid(mids, faces[j], p')
    requires Mid(mids, faces[i], q) == Mid(mids, faces[j], q')
    ensures i == j && p == p' && q == q'
  {
    var f, g := faces[i], faces[j];
    assert Key(EdgeOf(f, p)) == Key(EdgeOf(g, p'));
    assert Key(EdgeOf(f, q)) == Key(EdgeOf(g, q'));
    assert Ends(Key(EdgeOf(f, p))) == Ends(Key(EdgeOf(g, p')));
    assert Ends(Key(EdgeOf(f, q))) == Ends(Key(EdgeOf(g, q')));
    TwoEdgesGiveCorners(f, p, q);
    TwoEdgesGiveCorners(g, p', q');
    assert Corners(faces[i]) == Corners(faces[j]);
    assert i == j;
  }

  function Ends(key: (nat, nat)): set<nat> {
    {key.0, key.1}
  }

  lemma TwoEdgesGiveCorners(f: Face, p: nat, q: nat)
    requires p < 3 && q < 3 && p != q
    ensures Corners(f) == Ends(Key(EdgeOf(f, p))) + Ends(Key(EdgeOf(f, q)))
  {
  }

  /** A key with its tail fixes the directed edge. */
  lemma SameTailSameKey(d: Edge, e: Edge)
    requires Key(d) == Key(e) && (d.tail == e.tail || d.head == e.head)
    ensures d == e
  {
  }

  /** The slots of a middle-to-middle edge: the sides of the old face it joins. */
  function InnerFrom(k: nat, s: nat): (p: nat)
    requires k < 4 && s < 3
    ensures p < 3
  {
    if k < 3 then k else s
  }

  function InnerTo(k: nat, s: nat): (q: nat)
    requires k < 4 && s < 3
    ensures q < 3 && q != InnerFrom(k, s)
  {
    if k < 3 then Prev(k) else Next(s)
  }

  lemma ChildEdge(f: Face, mids: map<(nat, nat), nat>, k: nat, s: nat)
    requires k < 4 && s < 3 && HasMids(mids, f)
    ensures
      var e := EdgeOf(Child(f, mids, k), s);
      && (k < 3 && s == 0 ==> e == Edge(Corner(f, k), Mid(mids, f, k)))
      && (k < 3 && s == 2 ==> e == Edge(Mid(mids, f, Prev(k)), Corner(f, k)))
      && (k == 3 || s == 1 ==> e == Edge(Mid(mids, f, InnerFrom(k, s)), Mid(mids, f, InnerTo(k, s))))
  {
  }

  /** A midpoint fixes its key, and a key with one end fixed is a directed edge. */
  lemma SameHalf(faces: seq<Face>, count: nat, mids: map<(nat, nat), nat>, i: nat, p: nat, j: nat, q: nat)
    requires Closed(faces, count) && Fresh(count, mids)
    requires i < |faces| && j < |faces| && p < 3 && q < 3
    requires HasMids(mids, faces[i]) && HasMids(mids, faces[j])
    requires Mid(mids, faces[i], p) == Mid(mids, faces[j], q)
    requires Corner(faces[i], p) == Corner(faces[j], q) || Corner(faces[i], Next(p)) == Corner(faces[j], Next(q))
    ensures i == j && p == q
  {
    var d, e := EdgeOf(faces[i], p), EdgeOf(faces[j], q);
    assert Key(d) == Key(e);
    SameTailSameKey(d, e);
  }

  /** Old vertices and midpoints are told apart by their indices. */
  lemma OldAndNew(faces: seq<Face>, count: nat, mids: map<(nat, nat), nat>, i: nat)
    requires Closed(faces, count) && Fresh(count, mids)
    requires i < |faces| && HasMids(mids, faces[i])
    ensures forall k {:trigger Corner(faces[i], k)} | 0 <= k < 3 :: Corner(faces[i], k) < count
    ensures forall k {:trigger Mid(mids, faces[i], k)} | 0 <= k < 3 ::
      count <= Mid(mids, faces[i], k) < count + |mids|
  {
  }

  /** No directed edge of the finer mesh lies in two of its faces. */
  lemma ChildEdgesUnique(faces: seq<Face>, count: nat, mids: map<(nat, nat), nat>,
                         i: nat, k: nat, s: nat, j: nat, l: nat, t: nat)
    requires Closed(faces, count) && Fresh(count, mids)
    requires i < |faces| && j < |faces| && k < 4 && l < 4 && s < 3 && t < 3
    requires HasMids(mids, faces[i]) && HasMids(mids, faces[j])
    requires EdgeOf(Child(faces[i], mids, k), s) == EdgeOf(Child(faces[j], mids, l), t)
    ensures i == j && k == l && s == t
  {
    SameKindOfEdge(faces, count, mids, i, k, s, j, l, t);
    ChildEdge(faces[i], mids, k, s);
    ChildEdge(faces[j], mids, l, t);
    if k < 3 && s == 0 {
      SameHalf(faces, count, mids, i, k, j, l);
    } else if k < 3 && s == 2 {
      SameHalf(faces, count, mids, i, Prev(k), j, Prev(l));
    } else {
      TwoMidsGiveCorners(faces, count, mids, i, InnerFrom(k, s), InnerTo(k, s), j, InnerFrom(l, t), InnerTo(l, t));
    }
  }

  /** Whether an edge of the finer mesh leaves an old vertex, enters one, or neither. */
  lemma SameKindOfEdge(faces: seq<Face>, count: nat, mids: map<(nat, nat), nat>,
                       i: nat, k: nat, s: nat, j: nat, l: nat, t: nat)
    requires Closed(faces, count) && Fresh(count, mids)
    requires i < |faces| && j < |faces| && k < 4 && l < 4 && s < 3 && t < 3
    requires HasMids(mids, faces[i]) && HasMids(mids, faces[j])
    requires EdgeOf(Child(faces[i], mids, k), s) == EdgeOf(Child(faces[j], mids, l), t)
    ensures k < 3 && s == 0 <==> l < 3 && t == 0
    ensures k < 3 && s == 2 <==> l < 3 && t == 2
  {
    OldAndNew(faces, count, mids, i);
    OldAndNew(faces, count, mids, j);
    ChildEdge(faces[i], mids, k, s);
    ChildEdge(faces[j], mids, l, t);
  }

  lemma ChildCornersUnique(faces: seq<Face>, count: nat, mids: map<(nat, nat), nat>,
                           i: nat, k: nat, j: nat, l: nat)
    requires Closed(faces, count) && Fresh(count, mids)
    requires i < |faces| && j < |faces| && k < 4 && l < 4
    requires HasMids(mids, faces[i]) && HasMids(mids, faces[j])
    requires Corners(Child(faces[i], mids, k)) == Corners(Child(faces[j], mids, l))
    ensures i == j && k == l
  {
    SameKindOfFace(faces, count, mids, i, k, j, l);
    if k < 3 {
      SlotsDiffer(faces, count, mids, i, k, Prev(k));
      if Mid(mids, faces[i], k) == Mid(mids, faces[j], l) {
        TwoMidsGiveCorners(faces, count, mids, i, k, Prev(k), j, l, Prev(l));
      } else {
        TwoMidsGiveCorners(faces, count, mids, i, k, Prev(k), j, Prev(l), l);
      }
    } else {
      var p, q := FindMid(faces[i], faces[j], mids, 0), FindMid(faces[i], faces[j], mids, 1);
      SlotsDiffer(faces, count, mids, i, 0, 1);
      TwoMidsGiveCorners(faces, count, mids, i, 0, 1, j, p, q);
    }
  }

  ghost function FindMid(f: Face, g: Face, mids: map<(nat, nat), nat>, p: nat): (q: nat)
    requires HasMids(mids, f) && HasMids(mids, g) && p < 3
    requires Corners(Child(f, mids, 3)) == Corners(Child(g, mids, 3))
    ensures q < 3 && Mid(mids, g, q) == Mid(mids, f, p)
  {
    assert Mid(mids, f, p) in Corners(Child(f, mids, 3));
    if Mid(mids, g, 0) == Mid(mids, f, p) then 0 else if Mid(mids, g, 1) == Mid(mids, f, p) then 1 else 2
  }

  /** Only a face at a corner has an old vertex, and it has one. */
  lemma SameKindOfFace(faces: seq<Face>, count: nat, mids: map<(nat, nat), nat>,
                       i: nat, k: nat, j: nat, l: nat)
    requires Closed(faces, count) && Fresh(count, mids)
    requires i < |faces| && j < |faces| && k < 4 && l < 4
    requires HasMids(mids, faces[i]) && HasMids(mids, faces[j])
    requires Corners(Child(faces[i], mids, k)) == Corners(Child(faces[j], mids, l))
    ensures k < 3 <==> l < 3
    ensures k < 3 ==> Corner(faces[i], k) == Corner(faces[j], l)
    ensures k < 3 ==>
      {Mid(mids, faces[i], k), Mid(mids, faces[i], Prev(k))} == {Mid(mids, faces[j], l), Mid(mids, faces[j], Prev(l))}
  {
    OldAndNew(faces, count, mids, i);
    OldAndNew(faces, count, mids, j);
    FirstCornerDecides(Child(faces[i], mids, k), Child(faces[j], mids, l), count);
  }

  lemma FirstCornerDecides(x: Face, y: Face, count: nat)
    requires Corners(x) == Corners(y)
    requires x.b >= count && x.c >= count && y.b >= count && y.c >= count
    ensures x.a < count <==> y.a < count
    ensures x.a < count ==> x.a == y.a && {x.b, x.c} == {y.b, y.c}
  {
    assert x.a in Corners(y) && x.b in Corners(y) && x.c in Corners(y);
    assert y.a in Corners(x) && y.b in Corners(x) && y.c in Corners(x);
  }

  /** The three sides of a face have three midpoints. */
  lemma SlotsDiffer(faces: seq<Face>, count: nat, mids: map<(nat, nat), nat>, i: nat, p: nat, q: nat)
    requires Closed(faces, count) && Fresh(count, mids)
    requires i < |faces| && p < 3 && q < 3 && p != q && HasMids(mids, faces[i])
    ensures Mid(mids, faces[i], p) != Mid(mids, faces[i], q)
  {
    assert Key(EdgeOf(faces[i], p)) != Key(EdgeOf(faces[i], q));
  }

  lemma ChildReverse(faces: seq<Face>, count: nat, mids: map<(nat, nat), nat>, i: nat, k: nat, s: nat)
      returns (j: nat, l: nat, t: nat)
    requires Closed(faces, count) && Fresh(count, mids) && AllHaveMids(faces, mids)
    requires i < |faces| && k < 4 && s < 3
    requires HasMids(mids, faces[i])
    ensures j < |faces| && l < 4 && t < 3 && HasMids(mids, faces[j])
    ensures EdgeOf(Child(faces[j], mids, l), t) == Reverse(EdgeOf(Child(faces[i], mids, k), s))
  {
    var f := faces[i];
    ChildEdge(f, mids, k, s);
    if k == 3 {
      j, l, t := i, Next(s), 1;
    } else if s == 1 {
      j, l, t := i, 3, Prev(k);
    } else {
      var side := if s == 0 then k else Prev(k);
      assert HasReverse(faces, i, side);
      var m: nat;
      j, m :| 0 <= j < |faces| && 0 <= m < 3 && EdgeOf(faces[j], m) == Reverse(EdgeOf(f, side));
      if s == 0 {
        l, t := Next(m), 2;
      } else {
        l, t := m, 0;
      }
      assert HasMids(mids, faces[j]);
      assert Mid(mids, faces[j], m) == Mid(mids, f, side);
    }
    ChildEdge(faces[j], mids, l, t);
  }

  lemma ChildrenProper(faces: seq<Face>, count: nat, mids: map<(nat, nat), nat>, children: seq<Face>)
    requires Closed(faces, count) && Fresh(count, mids) && Subdivides(faces, mids, children)
    ensures Proper(children, count + |mids|)
  {
    forall n | 0 <= n < |children|
      ensures children[n].a < count + |mids| && children[n].b < count + |mids| && children[n].c < count + |mids|
      ensures children[n].a != children[n].b && children[n].b != children[n].c && children[n].c != children[n].a
    {
      var i := n / 4;
      assert ChildAt(children, i, n % 4) == Child(faces[i], mids, n % 4);
      SlotsDiffer(faces, count, mids, i, 0, 1);
      SlotsDiffer(faces, count, mids, i, 1, 2);
      SlotsDiffer(faces, count, mids, i, 0, 2);
    }
  }

  lemma ChildrenEdgesUnique(faces: seq<Face>, count: nat, mids: map<(nat, nat), nat>, children: seq<Face>)
    requires Closed(faces, count) && Fresh(count, mids) && Subdivides(faces, mids, children)
    ensures EdgesUnique(children)
  {
    forall n, s, m, t | 0 <= n < |children| && 0 <= s < 3 && 0 <= m < |children| && 0 <= t < 3
                     && EdgeOf(children[n], s) == EdgeOf(children[m], t)
      ensures n == m && s == t
    {
      assert ChildAt(children, n / 4, n % 4) == Child(faces[n / 4], mids, n % 4);
      assert ChildAt(children, m / 4, m % 4) == Child(faces[m / 4], mids, m % 4);
      ChildEdgesUnique(faces, count, mids, n / 4, n % 4, s, m / 4, m % 4, t);
    }
  }

  lemma ChildrenReversesPresent(faces: seq<Face>, count: nat, mids: map<(nat, nat), nat>, children: seq<Face>)
    requires Closed(faces, count) && Fresh(count, mids) && Subdivides(faces, mids, children)
    ensures ReversesPresent(children)
  {
    forall n, s | 0 <= n < |children| && 0 <= s < 3
      ensures HasReverse(children, n, s)
    {
      assert ChildAt(children, n / 4, n % 4) == Child(faces[n / 4], mids, n % 4);
      var j, l, t := ChildReverse(faces, count, mids, n / 4, n % 4, s);
      assert ChildAt(children, j, l) == Child(faces[j], mids, l);
      assert EdgeOf(children[4 * j + l], t) == Reverse(EdgeOf(children[n], s));
    }
  }

  lemma ChildrenCornersUnique(faces: seq<Face>, count: nat, mids: map<(nat, nat), nat>, children: seq<Face>)
    requires Closed(faces, count) && Fresh(count, mids) && Subdivides(faces, mids, children)
    ensures CornersUnique(children)
  {
    forall n, m | 0 <= n < |children| && 0 <= m < |children| && Corners(children[n]) == Corners(children[m])
      ensures n == m
    {
      assert ChildAt(children, n / 4, n % 4) == Child(faces[n / 4], mids, n % 4);
      assert ChildAt(children, m / 4, m % 4) == Child(faces[m / 4], mids, m % 4);
      ChildCornersUnique(faces, count, mids, n / 4, n % 4, m / 4, m % 4);
    }
  }

  /** Subdividing a closed surface with fresh midpoints gives a closed surface. */
  lemma SubdivisionCloses(faces: seq<Face>, count: nat, mids: map<(nat, nat), nat>, children: seq<Face>)
    requires Closed(faces, count) && Fresh(count, mids) && Subdivides(faces, mids, children)
    ensures Closed(children, count + |mids|)
  {
    ChildrenProper(faces, count, mids, children);
    ChildrenEdgesUnique(faces, count, mids, children);
    ChildrenReversesPresent(faces, count, mids, children);
    ChildrenCornersUnique(faces, count, mids, children);
  }
}
