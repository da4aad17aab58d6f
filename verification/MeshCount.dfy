/** Counting edges: a closed surface has three edges for every two faces. */
module MeshCount {
  import opened Mesh

  ghost function Sides(faces: seq<Face>): set<Edge> {
    set i, k {:trigger EdgeOf(faces[i], k)} | 0 <= i < |faces| && 0 <= k < 3 :: EdgeOf(faces[i], k)
  }

  lemma SidesExtend(faces: seq<Face>, n: nat)
    requires n < |faces|
    ensures Sides(faces[..n + 1])
         == Sides(faces[..n]) + {EdgeOf(faces[n], 0), EdgeOf(faces[n], 1), EdgeOf(faces[n], 2)}
  {
    var longer, shorter := faces[..n + 1], faces[..n];
    forall e | e in Sides(longer)
      ensures e in Sides(shorter) + {EdgeOf(faces[n], 0), EdgeOf(faces[n], 1), EdgeOf(faces[n], 2)}
    {
      var i, k :| 0 <= i < |longer| && 0 <= k < 3 && EdgeOf(longer[i], k) == e;
      if i < n {
        assert EdgeOf(shorter[i], k) == e;
      }
    }
    forall e | e in Sides(shorter) ensures e in Sides(longer) {
      var i, k :| 0 <= i < |shorter| && 0 <= k < 3 && EdgeOf(shorter[i], k) == e;
      assert EdgeOf(longer[i], k) == e;
    }
    assert EdgeOf(longer[n], 0) in Sides(longer);
    assert EdgeOf(longer[n], 1) in Sides(longer);
    assert EdgeOf(longer[n], 2) in Sides(longer);
  }

  lemma SidesAreNew(faces: seq<Face>, n: nat)
    requires EdgesUnique(faces) && n < |faces|
    ensures Sides(faces[..n]) !! {EdgeOf(faces[n], 0), EdgeOf(faces[n], 1), EdgeOf(faces[n], 2)}
    ensures |{EdgeOf(faces[n], 0), EdgeOf(faces[n], 1), EdgeOf(faces[n], 2)}| == 3
  {
    var shorter := faces[..n];
    forall e | e in Sides(shorter) ensures e !in {EdgeOf(faces[n], 0), EdgeOf(faces[n], 1), EdgeOf(faces[n], 2)} {
      var i, k :| 0 <= i < |shorter| && 0 <= k < 3 && EdgeOf(shorter[i], k) == e;
      assert EdgeOf(faces[i], k) == e;
    }
  }

  lemma {:induction false} SidesCount(faces: seq<Face>, n: nat)
    requires EdgesUnique(faces) && n <= |faces|
    ensures |Sides(faces[..n])| == 3 * n
  {
    if n == 0 {
      assert Sides(faces[..0]) == {};
    } else {
      SidesCount(faces, n - 1);
      SidesExtend(faces, n - 1);
      SidesAreNew(faces, n - 1);
    }
  }

  /** The sides that run one way along their edge. */
  ghost function Oriented(faces: seq<Face>, up: bool): set<Edge> {
    set e | e in Sides(faces) && (if up then e.tail < e.head else e.tail > e.head)
  }

  ghost function KeysOf(edges: set<Edge>): set<(nat, nat)> {
    set e | e in edges :: Key(e)
  }

  /** Edges that all run the same way have as many keys. */
  lemma {:induction false} OrientedSize(edges: set<Edge>, up: bool)
    requires forall e | e in edges :: if up then e.tail < e.head else e.tail > e.head
    ensures |KeysOf(edges)| == |edges|
    decreases |edges|
  {
    if edges != {} {
      var e :| e in edges;
      OrientedSize(edges - {e}, up);
      assert KeysOf(edges) == KeysOf(edges - {e}) + {Key(e)};
      assert Key(e) !in KeysOf(edges - {e});
    }
  }

  /** Each edge has a side running either way. */
  lemma OrientedKeys(faces: seq<Face>, count: nat, up: bool)
    requires Closed(faces, count)
    ensures KeysOf(Oriented(faces, up)) == Keys(faces)
  {
    forall key | key in Keys(faces) ensures key in KeysOf(Oriented(faces, up)) {
      var i, k :| 0 <= i < |faces| && 0 <= k < 3 && Key(EdgeOf(faces[i], k)) == key;
      var e := EdgeOf(faces[i], k);
      assert HasReverse(faces, i, k);
      var j, l :| 0 <= j < |faces| && 0 <= l < 3 && EdgeOf(faces[j], l) == Reverse(e);
      assert e in Sides(faces) && Reverse(e) in Sides(faces);
      assert e in Oriented(faces, up) || Reverse(e) in Oriented(faces, up);
      assert Key(Reverse(e)) == key;
    }
  }

  lemma SidesSplit(faces: seq<Face>, count: nat)
    requires Closed(faces, count)
    ensures |Sides(faces)| == |Oriented(faces, true)| + |Oriented(faces, false)|
  {
    forall e | e in Sides(faces) ensures e.tail != e.head {
      var i, k :| 0 <= i < |faces| && 0 <= k < 3 && EdgeOf(faces[i], k) == e;
    }
    assert Sides(faces) == Oriented(faces, true) + Oriented(faces, false);
    assert Oriented(faces, true) !! Oriented(faces, false);
  }

  /** Twice the number of edges is three times the number of faces. */
  lemma EdgeCount(faces: seq<Face>, count: nat)
    requires Closed(faces, count)
    ensures 2 * |Keys(faces)| == 3 * |faces|
  {
    assert faces[..|faces|] == faces;
    SidesCount(faces, |faces|);
    SidesSplit(faces, count);
    OrientedKeys(faces, count, true);
    OrientedKeys(faces, count, false);
    OrientedSize(Oriented(faces, true), true);
    OrientedSize(Oriented(faces, false), false);
  }
}
