/** A uniform polytope built by Wythoff's construction, as an object whose fields are
    filled in step by step: the vertex coset table and words, then the edge lists, then
    the face lists, with the three counters kept beside them. One class covers the three
    behaviours of the source: the reflection (Coxeter) presentation of `BasePolytope` and
    its length-checked subclasses, the rotation presentation of `Snub`, and that of
    `Snub24Cell`. */
module Polytopes {
  import opened Words
  import opened Symmetry
  import opened Validation
  import opened Orbits
  import opened Latex

  /** Which construction a polytope uses. */
  datatype Family = Wythoff | SnubPolyhedron | SnubCell24

  /** A constructor either succeeds or raises `ValueError` with a message. */
  datatype Result<T> = Ok(value: T) | Err(message: string)

  /** The Coxeter diagram of `Snub24Cell`, as branch labels. */
  function Snub24Diagram(): seq<int>
  {
    [3, 2, 2, 3, 3, 2]
  }

  class Polytope {
    const family: Family
    /** The Coxeter matrix of the full symmetry group. */
    const matrix: seq<seq<int>>
    const active: seq<bool>
    const gens: seq<nat>
    const rels: seq<Word>
    /** The fundamental rotations of a snub presentation (none for the Coxeter case). */
    const rotations: seq<Rotation>
    /** The coset enumerator the source constructs a `CosetTable` with. */
    const enumerate: Enumerator

    /** `None` until `GetVertices` has run. */
    var vtable: Option<Table>
    var vwords: seq<Word>
    var numVertices: nat
    var numEdges: nat
    var numFaces: nat
    var edgeIndices: seq<seq<Edge>>
    var faceIndices: seq<seq<Face>>

    /** The presentation handed to the enumerator. */
    function Pres(): GroupPresentation
    {
      GroupPresentation(gens, rels, family == Wythoff)
    }

    /** Generators of the stabilizer of the initial vertex: the inactive mirrors in the
        Coxeter case, the trivial subgroup for a snub. */
    function VertexStabilizer(): (r: seq<Word>)
      ensures family != Wythoff ==> r == []
      ensures forall k | 0 <= k < |r| :: |r[k]| == 1 && r[k][0] < |active| && !active[r[k][0]]
    {
      if family == Wythoff then InactiveMirrors(active) else []
    }

    /** The completed coset table of the vertices. */
    function VertexCosets(): CosetTable
    {
      enumerate(Pres(), VertexStabilizer())
    }

    /** The extra triangles of a snub. */
    function Triangles(): seq<Triangle>
    {
      match family
      case Wythoff => []
      case SnubPolyhedron => SnubTriangles()
      case SnubCell24 => Snub24Triangles()
    }

    /** The presentation matches the family and the enumerator is sound for it. */
    ghost predicate Presented()
    {
      IsSquare(matrix) && |active| == |matrix| &&
      EnumeratorSound(enumerate, Pres()) &&
      WellFormedCosets(VertexCosets(), |gens|) &&
      RotationsOver(rotations, |gens|) && TrianglesOver(Triangles(), |gens|) &&
      match family
      case Wythoff => gens == Range(|matrix|) && rotations == []
      case SnubPolyhedron =>
        |matrix| == 3 && gens == SnubGens() && rels == SnubRelators(matrix) && rotations == SnubRotations(matrix)
      case SnubCell24 =>
        gens == Snub24Gens() && rels == Snub24Relators() && rotations == Snub24Rotations()
    }

    /** Once computed, the vertex table and words are the enumerator's, and `num_vertices`
        counts the words. */
    ghost predicate Tabled()
      reads this`vtable, this`vwords, this`numVertices
    {
      vtable.Some? ==> vtable.value == VertexCosets().table && vwords == VertexCosets().words && numVertices == |vwords|
    }

    /** `num_edges` and `num_faces` count the listed edges and faces. */
    predicate Counted()
      reads this`numEdges, this`edgeIndices, this`numFaces, this`faceIndices
    {
      numEdges == TotalLength(edgeIndices) && numFaces == TotalLength(faceIndices)
    }

    ghost predicate Valid()
      reads this
    {
      Presented() && Tabled() && Counted()
    }

    /** Nothing computed yet. */
    predicate Unbuilt()
      reads this
    {
      vtable == None && vwords == [] && numVertices == 0 && numEdges == 0 && numFaces == 0 &&
      edgeIndices == [] && faceIndices == []
    }

    /** The edge lists `get_edges` appends, given the vertex table. */
    ghost function EdgeLists(): (r: seq<seq<Edge>>)
      reads this
      requires Valid() && vtable.Some?
      ensures family == Wythoff ==> |r| <= |active|
      ensures family != Wythoff ==> |r| == |rotations|
    {
      if family == Wythoff then
        CoxeterEdgeLists(matrix, active, vtable.value, enumerate, Pres(), |active|)
      else
        RotationEdgeLists(vtable.value, rotations, vwords, enumerate, Pres(), |rotations|)
    }

    /** The face lists `get_faces` appends, given the vertex table. */
    ghost function FaceLists(): (r: seq<seq<Face>>)
      reads this
      requires Valid() && vtable.Some?
      ensures family == Wythoff ==> |r| <= |Pairs(|matrix|)|
      ensures family != Wythoff ==> |Triangles()| <= |r| <= |rotations| + |Triangles()|
    {
      if family == Wythoff then
        CoxeterFaceLists(matrix, active, vtable.value, enumerate, Pres(), |Pairs(|matrix|)|)
      else
        RotationFaceLists(vtable.value, rotations, vwords, enumerate, Pres(), |rotations|) +
        TriangleLists(vtable.value, Triangles(), vwords, |Triangles()|)
    }

    /** `BasePolytope(coxeter_diagram, init_dist, extra_relations)`, given the Coxeter matrix of
        the diagram: mirrors are active where the distance is non-zero, the generators are the
        mirrors and the relators are the Coxeter relators followed by the extra relations. */
    constructor Base(matrix: seq<seq<int>>, initDist: seq<real>, extra: seq<Word>, enumerate: Enumerator)
      requires IsSquare(matrix) && |initDist| == |matrix|
      requires EnumeratorSound(enumerate, GroupPresentation(Range(|matrix|), CoxeterRelators(matrix, extra), true))
      ensures Valid() && Unbuilt() && family == Wythoff
      ensures this.matrix == matrix && active == ActiveFlags(initDist) && this.enumerate == enumerate
      ensures gens == Range(|matrix|) && rels == CoxeterRelators(matrix, extra) && rotations == []
    {
      family := Wythoff;
      this.matrix := matrix;
      active := ActiveFlags(initDist);
      gens := Range(|matrix|);
      rels := CoxeterRelators(matrix, extra);
      rotations := [];
      this.enumerate := enumerate;
      vtable := None;
      vwords := [];
      numVertices, numEdges, numFaces := 0, 0, 0;
      edgeIndices, faceIndices := [], [];
      new;
      assert WellFormedCosets(VertexCosets(), |gens|);
    }

    /** `Snub(coxeter_diagram, init_dist)`: the rotation subgroup `<r, s>` with `r = ρ0ρ1`,
        `s = ρ1ρ2`, on generators `r, r^-1, s, s^-1`, replacing the Coxeter presentation. */
    constructor Snub(matrix: seq<seq<int>>, initDist: seq<real>, enumerate: Enumerator)
      requires IsSquare(matrix) && |matrix| == 3 && |initDist| == 3
      requires EnumeratorSound(enumerate, GroupPresentation(SnubGens(), SnubRelators(matrix), false))
      ensures Valid() && Unbuilt() && family == SnubPolyhedron
      ensures this.matrix == matrix && active == ActiveFlags(initDist) && this.enumerate == enumerate
      ensures gens == SnubGens() && rels == SnubRelators(matrix) && rotations == SnubRotations(matrix)
    {
      family := SnubPolyhedron;
      this.matrix := matrix;
      active := ActiveFlags(initDist);
      gens := SnubGens();
      rels := SnubRelators(matrix);
      rotations := SnubRotations(matrix);
      this.enumerate := enumerate;
      vtable := None;
      vwords := [];
      numVertices, numEdges, numFaces := 0, 0, 0;
      edgeIndices, faceIndices := [], [];
      new;
      SnubPresentation(matrix);
      assert WellFormedCosets(VertexCosets(), |gens|);
    }

    /** `Snub24Cell()`: the fixed diagram `(3, 2, 2, 3, 3, 2)` with every mirror active passes
        the polychoron length check; the presentation is that of `<r, s, t>` with
        `r = ρ0ρ1`, `s = ρ1ρ2`, `t = ρ1ρ3` on generators `r, r^-1, s, s^-1, t, t^-1`. */
    constructor Snub24Cell(matrix: seq<seq<int>>, enumerate: Enumerator)
      requires IsSquare(matrix) && BuilderShape(|Snub24Diagram()|, |matrix|)
      requires EnumeratorSound(enumerate, GroupPresentation(Snub24Gens(), Snub24Relators(), false))
      ensures PolychoraCheck(|Snub24Diagram()|, 4).Pass?
      ensures Valid() && Unbuilt() && family == SnubCell24
      ensures this.matrix == matrix && |matrix| == 4 && active == [true, true, true, true]
      ensures gens == Snub24Gens() && rels == Snub24Relators() && rotations == Snub24Rotations()
      ensures this.enumerate == enumerate
    {
      MirrorCount(4, |matrix|);
      family := SnubCell24;
      this.matrix := matrix;
      active := ActiveFlags([1.0, 1.0, 1.0, 1.0]);
      gens := Snub24Gens();
      rels := Snub24Relators();
      rotations := Snub24Rotations();
      this.enumerate := enumerate;
      vtable := None;
      vwords := [];
      numVertices, numEdges, numFaces := 0, 0, 0;
      edgeIndices, faceIndices := [], [];
      new;
      Snub24RotationsOver();
      assert WellFormedCosets(VertexCosets(), |gens|);
    }

    /** `move(vertex, word)`: the vertex reached by applying the generators of `word` in turn. */
    method Move(vertex: nat, word: Word) returns (v: nat)
      requires vtable.Some? && IsActionTable(vtable.value) && vertex < |vtable.value|
      requires WordOver(word, Width(vtable.value))
      ensures v < |vtable.value| && v == Walk(vtable.value, vertex, word)
    {
      var t := vtable.value;
      v := vertex;
      var k := 0;
      while k < |word|
        invariant k <= |word| && v < |t|
        invariant WordOver(word[k..], Width(t))
        invariant Walk(t, v, word[k..]) == Walk(t, vertex, word)
      {
        assert word[k..][0] == word[k] && word[k..][1..] == word[k + 1..];
        v := t[v][word[k]];
        k := k + 1;
      }
    }

    /** `get_orthogonal_stabilizing_mirrors(subgens)`: the `(s,)` for the generators `s` that
        commute with every generator of `subgens` and fix the initial vertex. */
    method OrthogonalStabilizingMirrors(subgens: Word) returns (result: seq<Word>)
      requires IsSquare(matrix) && |active| == |matrix| && gens == Range(|matrix|)
      requires WordOver(subgens, |matrix|)
      ensures result == OrthogonalMirrors(matrix, active, subgens)
    {
      ghost var flags := OrthogonalFlags(matrix, active, subgens);
      result := [];
      var s := 0;
      while s < |gens|
        invariant s <= |gens|
        invariant result == Singletons(Selected(flags, s))
      {
        var g := gens[s];
        // `all(...)` stops at the first generator that does not commute
        var commutes := true;
        var x := 0;
        while x < |subgens| && commutes
          invariant x <= |subgens|
          invariant commutes <==> forall y | 0 <= y < x :: matrix[subgens[y]][g] == 2
        {
          commutes := matrix[subgens[x]][g] == 2;
          x := x + 1;
        }
        assert commutes == Commutes(matrix, subgens, g);
        ghost var prev := Selected(flags, s);
        if commutes && !active[g] {
          result := result + [[g]];
          assert Selected(flags, s + 1) == prev + [s];
        } else {
          assert Selected(flags, s + 1) == prev;
        }
        s := s + 1;
      }
    }

    /** `tuple(self.move(v, word) for v in f)`. */
    method MoveFace(f: Face, word: Word) returns (image: Face)
      requires vtable.Some? && IsActionTable(vtable.value) && OnTable(vtable.value, f)
      requires WordOver(word, Width(vtable.value))
      ensures image == FaceImage(vtable.value, f, word)
    {
      image := [];
      var k := 0;
      while k < |f|
        invariant k <= |f| && |image| == k
        invariant forall x | 0 <= x < k :: image[x] == Walk(vtable.value, f[x], word)
      {
        var v := Move(f[k], word);
        image := image + [v];
        k := k + 1;
      }
    }

    /** The list of the images of a base face under the coset words. */
    method FaceOrbitOf(f0: Face, words: seq<Word>) returns (flist: seq<Face>)
      requires vtable.Some? && IsActionTable(vtable.value) && OnTable(vtable.value, f0)
      requires AllOver(words, Width(vtable.value))
      ensures flist == FaceOrbit(vtable.value, f0, words)
    {
      flist := [];
      var k := 0;
      while k < |words|
        invariant k <= |words| && |flist| == k
        invariant forall x | 0 <= x < k :: flist[x] == FaceImage(vtable.value, f0, words[x])
      {
        var f := MoveFace(f0, words[k]);
        flist := flist + [f];
        k := k + 1;
      }
    }

    /** The list of the images of a base edge under the coset words. */
    method EdgeOrbitOf(e0: Edge, words: seq<Word>) returns (elist: seq<Edge>)
      requires vtable.Some? && IsActionTable(vtable.value) && e0.0 < |vtable.value| && e0.1 < |vtable.value|
      requires AllOver(words, Width(vtable.value))
      ensures elist == EdgeOrbit(vtable.value, e0, words)
    {
      elist := [];
      var k := 0;
      while k < |words|
        invariant k <= |words| && |elist| == k
        invariant forall x | 0 <= x < k :: elist[x] == EdgeImage(vtable.value, e0, words[x])
      {
        var v1 := Move(e0.0, words[k]);
        var v2 := Move(e0.1, words[k]);
        elist := elist + [(v1, v2)];
        k := k + 1;
      }
    }

    /** The edges of type `i`: the stabilizer of the base edge is generated by `ρi` and its
        orthogonal stabilizing mirrors, and each coset word gives the edge
        `(move(0, word), move(0, (i,) + word))`, the image of the base edge `(v0, v0 ρi)`. */
    method EdgesOfMirror(i: nat) returns (elist: seq<Edge>)
      requires vtable.Some? && CoxeterContext(matrix, active, vtable.value, enumerate, Pres())
      requires gens == Range(|matrix|) && i < |matrix|
      ensures var words := enumerate(Pres(), EdgeStabilizer(matrix, active, i)).words;
        AllOver(words, |matrix|) &&
        elist == CoxeterEdgeList(vtable.value, i, words) &&
        elist == EdgeOrbit(vtable.value, (0, Walk(vtable.value, 0, [i])), words)
    {
      var t := vtable.value;
      var mirrors := OrthogonalStabilizingMirrors([i]);
      var egens := [[i]] + mirrors;
      var etable := enumerate(Pres(), egens);
      assert WellFormedCosets(etable, |gens|);
      var words := etable.words;
      elist := [];
      var k := 0;
      while k < |words|
        invariant k <= |words| && |elist| == k
        invariant forall x | 0 <= x < k :: elist[x] == CoxeterEdgeList(t, i, words)[x]
      {
        var word := words[k];
        PrefixOver(i, word, Width(t));
        var v1 := Move(0, word);
        var v2 := Move(0, [i] + word);
        elist := elist + [(v1, v2)];
        k := k + 1;
      }
      CoxeterEdgeListIsOrbit(t, i, words);
    }

    /** `edge_indices.append(elist)` and `num_edges += len(elist)`. */
    method AppendEdges(elist: seq<Edge>)
      requires Counted()
      modifies this`edgeIndices, this`numEdges
      ensures Counted() && edgeIndices == old(edgeIndices) + [elist] && numEdges == old(numEdges) + |elist|
    {
      TotalLengthSnoc(edgeIndices, elist);
      edgeIndices := edgeIndices + [elist];
      numEdges := numEdges + |elist|;
    }

    /** `face_indices.append(flist)` and `num_faces += len(flist)`. */
    method AppendFaces(flist: seq<Face>)
      requires Counted()
      modifies this`faceIndices, this`numFaces
      ensures Counted() && faceIndices == old(faceIndices) + [flist] && numFaces == old(numFaces) + |flist|
    {
      TotalLengthSnoc(faceIndices, flist);
      faceIndices := faceIndices + [flist];
      numFaces := numFaces + |flist|;
    }

    /** `[move(0, w * k) for k in range(c)]`. */
    method CycleBaseFace(w: Word, c: int) returns (f0: Face)
      requires vtable.Some? && TableFor(vtable.value, Width(vtable.value)) && WordOver(w, Width(vtable.value))
      ensures f0 == CycleFace(vtable.value, w, c)
    {
      var t := vtable.value;
      ghost var face := CycleFace(t, w, c);
      f0 := [];
      var k := 0;
      while k < c
        invariant k <= |face| && f0 == face[..k]
      {
        RepeatOver(w, k, Width(t));
        var v := Move(0, Repeat(w, k));
        assert face[..k + 1] == face[..k] + [v];
        f0 := f0 + [v];
        k := k + 1;
      }
      assert face[..k] == face;
    }

    /** The `2c`-gon of two active mirrors: `move(0, (i, j) * k)` then
        `move(0, (j,) + (i, j) * k)` for each `k` in `range(c)`. */
    method AlternatingBaseFace(i: nat, j: nat, c: int) returns (f0: Face)
      requires vtable.Some? && TableFor(vtable.value, Width(vtable.value))
      requires i < Width(vtable.value) && j < Width(vtable.value)
      ensures f0 == AlternatingFace(vtable.value, i, j, c)
    {
      var t := vtable.value;
      ghost var face := AlternatingFace(t, i, j, c);
      f0 := [];
      var k := 0;
      while k < c
        invariant 2 * k <= |face| && f0 == face[..2 * k]
      {
        var w := Repeat([i, j], k);
        RepeatOver([i, j], k, Width(t));
        PrefixOver(j, w, Width(t));
        var a := Move(0, w);
        var b := Move(0, [j] + w);
        assert (2 * k) / 2 == k && (2 * k + 1) / 2 == k;
        assert face[..2 * k + 2] == face[..2 * k] + [a, b];
        f0 := f0 + [a, b];
        k := k + 1;
      }
      assert face[..2 * k] == face;
    }

    /** `get_vertices`: the coset table of the vertex stabilizer, its words, and the count. */
    method GetVertices()
      requires Valid()
      modifies this`vtable, this`vwords, this`numVertices
      ensures Valid() && vtable == Some(VertexCosets().table) && vwords == VertexCosets().words
      ensures numVertices == |vwords|
    {
      var ct := enumerate(Pres(), VertexStabilizer());
      vtable := Some(ct.table);
      vwords := ct.words;
      numVertices := |vwords|;
    }

    /** The step of `get_edges` for mirror `i`: an active mirror appends its orbit of edges. */
    method MirrorEdges(i: nat, ghost start: seq<seq<Edge>>)
      requires vtable.Some? && CoxeterContext(matrix, active, vtable.value, enumerate, Pres())
      requires gens == Range(|matrix|) && i < |active| && Counted()
      requires edgeIndices == start + CoxeterEdgeLists(matrix, active, vtable.value, enumerate, Pres(), i)
      modifies this`edgeIndices, this`numEdges
      ensures Counted()
      ensures edgeIndices == start + CoxeterEdgeLists(matrix, active, vtable.value, enumerate, Pres(), i + 1)
    {
      if active[i] {
        var elist := EdgesOfMirror(i);
        AppendEdges(elist);
      }
    }

    /** `get_edges` of `BasePolytope`: one orbit of edges per active mirror. */
    method CoxeterEdges()
      requires vtable.Some? && CoxeterContext(matrix, active, vtable.value, enumerate, Pres())
      requires gens == Range(|matrix|) && Counted()
      modifies this`edgeIndices, this`numEdges
      ensures Counted()
      ensures edgeIndices == old(edgeIndices) + CoxeterEdgeLists(matrix, active, vtable.value, enumerate, Pres(), |active|)
    {
      ghost var start := edgeIndices;
      assert edgeIndices == start + [];
      var i := 0;
      while i < |active|
        invariant i <= |active| && Counted()
        invariant edgeIndices == start + CoxeterEdgeLists(matrix, active, vtable.value, enumerate, Pres(), i)
      {
        MirrorEdges(i, start);
        i := i + 1;
      }
    }

    /** The edges of a fundamental rotation: the base edge `(v0, v0 rot)` moved by the coset
        words of `<rot>` when the rotation has order 2, by the vertex words otherwise. */
    method EdgesOfRotation(rot: Rotation) returns (elist: seq<Edge>)
      requires vtable.Some? && TableFor(vtable.value, |gens|) && WordOver(rot.word, |gens|)
      requires EnumeratorSound(enumerate, Pres()) && AllOver(vwords, |gens|)
      ensures var words := RotationEdgeWords(rot, vwords, enumerate, Pres());
        AllOver(words, |gens|) &&
        elist == EdgeOrbit(vtable.value, (0, Walk(vtable.value, 0, rot.word)), words)
    {
      var words;
      if rot.order == 2 {
        var etable := enumerate(Pres(), [rot.word]);
        assert WellFormedCosets(etable, |gens|);
        words := etable.words;
      } else {
        words := vwords;
      }
      var v1 := Move(0, rot.word);
      elist := EdgeOrbitOf((0, v1), words);
    }

    /** The step of `get_edges` for the `q`-th fundamental rotation. */
    method RotationStepEdges(q: nat, ghost start: seq<seq<Edge>>)
      requires vtable.Some? && RotationContext(vtable.value, rotations, vwords, enumerate, Pres())
      requires q < |rotations| && Counted()
      requires edgeIndices == start + RotationEdgeLists(vtable.value, rotations, vwords, enumerate, Pres(), q)
      modifies this`edgeIndices, this`numEdges
      ensures Counted()
      ensures edgeIndices == start + RotationEdgeLists(vtable.value, rotations, vwords, enumerate, Pres(), q + 1)
    {
      var elist := EdgesOfRotation(rotations[q]);
      AppendEdges(elist);
    }

    /** `get_edges` of the snubs: one orbit of edges per fundamental rotation. */
    method RotationEdges()
      requires vtable.Some? && RotationContext(vtable.value, rotations, vwords, enumerate, Pres()) && Counted()
      modifies this`edgeIndices, this`numEdges
      ensures Counted()
      ensures edgeIndices == old(edgeIndices) + RotationEdgeLists(vtable.value, rotations, vwords, enumerate, Pres(), |rotations|)
    {
      ghost var start := edgeIndices;
      assert edgeIndices == start + [];
      var q := 0;
      while q < |rotations|
        invariant q <= |rotations| && Counted()
        invariant edgeIndices == start + RotationEdgeLists(vtable.value, rotations, vwords, enumerate, Pres(), q)
      {
        RotationStepEdges(q, start);
        q := q + 1;
      }
    }

    /** `get_edges`, as each family defines it. */
    method GetEdges()
      requires Valid() && vtable.Some?
      modifies this`edgeIndices, this`numEdges
      ensures Valid() && edgeIndices == old(edgeIndices) + EdgeLists()
    {
      if family == Wythoff {
        assert CoxeterContext(matrix, active, vtable.value, enumerate, Pres());
        CoxeterEdges();
      } else {
        assert RotationContext(vtable.value, rotations, vwords, enumerate, Pres());
        RotationEdges();
      }
    }

    /** The faces of the `q`-th pair `(i, j)` of mirrors: its base face, if the pair generates
        one, moved by the coset words of the stabilizer generated by `ρi`, `ρj` and their
        orthogonal stabilizing mirrors. */
    method FacesOfPair(q: nat) returns (generates: bool, flist: seq<Face>)
      requires vtable.Some? && CoxeterContext(matrix, active, vtable.value, enumerate, Pres())
      requires gens == Range(|matrix|) && q < |Pairs(|matrix|)|
      ensures generates == FaceFlags(matrix, active)[q]
      ensures generates ==> flist == PairFaceOrbit(matrix, active, vtable.value, enumerate, Pres(), q)
    {
      var (i, j) := Pairs(|gens|)[q];
      var m := matrix[i][j];
      var mirrors := OrthogonalStabilizingMirrors([i, j]);
      var fgens := [[i], [j]] + mirrors;
      var f0: Face := [];
      generates := true;
      if active[i] && active[j] {
        f0 := AlternatingBaseFace(i, j, m);
      } else if (active[i] || active[j]) && m > 2 {
        f0 := CycleBaseFace([i, j], m);
      } else {
        generates := false;
      }
      flist := [];
      if generates {
        var ftable := enumerate(Pres(), fgens);
        assert WellFormedCosets(ftable, |gens|);
        flist := FaceOrbitOf(f0, ftable.words);
      }
    }

    /** The step of `get_faces` for the `q`-th pair: a face-generating pair appends the orbit
        of its base face. */
    method PairFaces(q: nat, ghost start: seq<seq<Face>>)
      requires vtable.Some? && CoxeterContext(matrix, active, vtable.value, enumerate, Pres())
      requires gens == Range(|matrix|) && q < |Pairs(|matrix|)| && Counted()
      requires faceIndices == start + CoxeterFaceLists(matrix, active, vtable.value, enumerate, Pres(), q)
      modifies this`faceIndices, this`numFaces
      ensures Counted()
      ensures faceIndices == start + CoxeterFaceLists(matrix, active, vtable.value, enumerate, Pres(), q + 1)
    {
      var generates, flist := FacesOfPair(q);
      CoxeterFaceListsStep(matrix, active, vtable.value, enumerate, Pres(), q, flist);
      if generates {
        AppendFaces(flist);
      }
    }

    /** `get_faces` of `BasePolytope`: for each pair of mirrors that generates a face, the orbit
        of its base face. */
    method CoxeterFaces()
      requires vtable.Some? && CoxeterContext(matrix, active, vtable.value, enumerate, Pres())
      requires gens == Range(|matrix|) && Counted()
      modifies this`faceIndices, this`numFaces
      ensures Counted()
      ensures faceIndices == old(faceIndices) + CoxeterFaceLists(matrix, active, vtable.value, enumerate, Pres(), |Pairs(|matrix|)|)
    {
      ghost var start := faceIndices;
      assert faceIndices == start + [];
      assert |gens| == |matrix|;
      var count := |Pairs(|gens|)|;
      var q := 0;
      while q < count
        invariant q <= count == |Pairs(|matrix|)| && Counted()
        invariant faceIndices == start + CoxeterFaceLists(matrix, active, vtable.value, enumerate, Pres(), q)
      {
        PairFaces(q, start);
        q := q + 1;
      }
    }

    /** The faces of a fundamental rotation of order greater than two: the polygon
        `v0, v0 rot, v0 rot^2, ...` moved by the coset words of `<rot>`. */
    method FacesOfRotation(rot: Rotation) returns (flist: seq<Face>)
      requires vtable.Some? && TableFor(vtable.value, |gens|) && WordOver(rot.word, |gens|)
      requires EnumeratorSound(enumerate, Pres())
      ensures var words := enumerate(Pres(), [rot.word]).words;
        AllOver(words, |gens|) &&
        flist == FaceOrbit(vtable.value, CycleFace(vtable.value, rot.word, rot.order), words)
    {
      var f0 := CycleBaseFace(rot.word, rot.order);
      var ftable := enumerate(Pres(), [rot.word]);
      assert WellFormedCosets(ftable, |gens|);
      flist := FaceOrbitOf(f0, ftable.words);
    }

    /** The step of `get_faces` for the `q`-th fundamental rotation: one of order greater than
        two appends its orbit of faces. */
    method RotationStepFaces(q: nat, ghost start: seq<seq<Face>>)
      requires vtable.Some? && RotationContext(vtable.value, rotations, vwords, enumerate, Pres())
      requires q < |rotations| && Counted()
      requires faceIndices == start + RotationFaceLists(vtable.value, rotations, vwords, enumerate, Pres(), q)
      modifies this`faceIndices, this`numFaces
      ensures Counted()
      ensures faceIndices == start + RotationFaceLists(vtable.value, rotations, vwords, enumerate, Pres(), q + 1)
    {
      if rotations[q].order > 2 {
        var flist := FacesOfRotation(rotations[q]);
        AppendFaces(flist);
      }
    }

    /** The faces of the fundamental rotations of order greater than two. */
    method RotationFaces()
      requires vtable.Some? && RotationContext(vtable.value, rotations, vwords, enumerate, Pres()) && Counted()
      modifies this`faceIndices, this`numFaces
      ensures Counted()
      ensures faceIndices == old(faceIndices) + RotationFaceLists(vtable.value, rotations, vwords, enumerate, Pres(), |rotations|)
    {
      ghost var start := faceIndices;
      assert faceIndices == start + [];
      var q := 0;
      while q < |rotations|
        invariant q <= |rotations| && Counted()
        invariant faceIndices == start + RotationFaceLists(vtable.value, rotations, vwords, enumerate, Pres(), q)
      {
        RotationStepFaces(q, start);
        q := q + 1;
      }
    }

    /** An extra triangle `(v0, v0 a, v0 b)` moved by every vertex word. */
    method FacesOfTriangle(tri: Triangle) returns (flist: seq<Face>)
      requires vtable.Some? && TableFor(vtable.value, Width(vtable.value))
      requires WordOver(tri.second, Width(vtable.value)) && WordOver(tri.third, Width(vtable.value))
      requires AllOver(vwords, Width(vtable.value))
      ensures flist == FaceOrbit(vtable.value, Corners(vtable.value, tri), vwords)
    {
      var a := Move(0, tri.second);
      var b := Move(0, tri.third);
      flist := FaceOrbitOf([0, a, b], vwords);
    }

    /** The step of `get_faces` for the `k`-th extra triangle. */
    method TriangleStepFaces(k: nat, ghost start: seq<seq<Face>>)
      requires vtable.Some? && TableFor(vtable.value, |gens|) && TrianglesOver(Triangles(), |gens|)
      requires AllOver(vwords, |gens|) && k < |Triangles()| && Counted()
      requires faceIndices == start + TriangleLists(vtable.value, Triangles(), vwords, k)
      modifies this`faceIndices, this`numFaces
      ensures Counted()
      ensures faceIndices == start + TriangleLists(vtable.value, Triangles(), vwords, k + 1)
    {
      var flist := FacesOfTriangle(Triangles()[k]);
      AppendFaces(flist);
    }

    /** The extra triangles of a snub, each moved by every vertex word. */
    method TriangleFaces()
      requires vtable.Some? && TableFor(vtable.value, |gens|) && TrianglesOver(Triangles(), |gens|)
      requires AllOver(vwords, |gens|) && Counted()
      modifies this`faceIndices, this`numFaces
      ensures Counted()
      ensures faceIndices == old(faceIndices) + TriangleLists(vtable.value, Triangles(), vwords, |Triangles()|)
    {
      ghost var start := faceIndices;
      assert faceIndices == start + [];
      var tris := Triangles();
      var k := 0;
      while k < |tris|
        invariant k <= |tris| && Counted()
        invariant faceIndices == start + TriangleLists(vtable.value, tris, vwords, k)
      {
        TriangleStepFaces(k, start);
        k := k + 1;
      }
    }

    /** `get_faces` of the snubs: the faces of the rotations, then the extra triangles. */
    method SnubFaces()
      requires vtable.Some? && RotationContext(vtable.value, rotations, vwords, enumerate, Pres())
      requires TrianglesOver(Triangles(), |gens|) && Counted()
      modifies this`faceIndices, this`numFaces
      ensures Counted()
      ensures faceIndices == old(faceIndices) +
        (RotationFaceLists(vtable.value, rotations, vwords, enumerate, Pres(), |rotations|) +
         TriangleLists(vtable.value, Triangles(), vwords, |Triangles()|))
    {
      ghost var start := faceIndices;
      ghost var rotationLists := RotationFaceLists(vtable.value, rotations, vwords, enumerate, Pres(), |rotations|);
      ghost var triangleLists := TriangleLists(vtable.value, Triangles(), vwords, |Triangles()|);
      RotationFaces();
      TriangleFaces();
      assert faceIndices == start + rotationLists + triangleLists;
      assert start + rotationLists + triangleLists == start + (rotationLists + triangleLists);
    }

    /** `get_faces`, as each family defines it. */
    method GetFaces()
      requires Valid() && vtable.Some?
      modifies this`faceIndices, this`numFaces
      ensures Valid() && faceIndices == old(faceIndices) + FaceLists()
    {
      if family == Wythoff {
        assert CoxeterContext(matrix, active, vtable.value, enumerate, Pres());
        CoxeterFaces();
      } else {
        assert RotationContext(vtable.value, rotations, vwords, enumerate, Pres());
        SnubFaces();
      }
    }

    /** `get_latex_format(symbol, cols, snub)`: the vertex words as the cells of a LaTeX array
        of `cols` columns, written cell by cell. */
    method LatexFormat(symbol: string := "\\rho", cols: int := 3, snub: bool := false) returns (r: Formatted)
      requires vtable.Some?
      ensures r == LatexArray(symbol, vwords, cols, snub)
    {
      var words := vwords;
      ghost var cells := Cells(symbol, words, snub);
      var latex := "";
      var i := 0;
      while i < |words|
        invariant i <= |words| && (cols != 0 || i == 0)
        invariant latex == BodyAt(cells[..i], cols, 0)
      {
        var brk := if i > 0 && PyMod(i, cols) == 0 then RowBreak else "";
        var cell := WordToLatex(symbol, words[i], snub);
        if cols == 0 {
          return DivisionByZero;
        }
        var amp := if PyMod(i, cols) != cols - 1 then "&" else "";
        BodySnoc(cells, i, cols);
        assert Entry(i, cells[i], cols) == brk + cell + amp;
        latex := latex + brk + cell + amp;
        i := i + 1;
      }
      assert cells[..i] == cells;
      r := Formatted("\\begin{array}{" + seq(Times(cols), _ => 'l') + "}" + latex + "\\end{array}");
    }

    /** `build_geometry`: vertices, then edges, then faces. */
    method BuildGeometry()
      requires Valid()
      modifies this`vtable, this`vwords, this`numVertices, this`edgeIndices, this`numEdges,
               this`faceIndices, this`numFaces
      ensures Valid() && vtable == Some(VertexCosets().table) && vwords == VertexCosets().words
      ensures edgeIndices == old(edgeIndices) + EdgeLists()
      ensures faceIndices == old(faceIndices) + FaceLists()
    {
      GetVertices();
      GetEdges();
      GetFaces();
    }
  }

  // ---------------------------------------------------------------------------------------
  // The length-checked constructors

  /** `Polyhedra(coxeter_diagram, init_dist, extra_relations=())`: refused unless the diagram and
      the distances both have length 3; otherwise a Coxeter-case polytope of three mirrors. The
      Coxeter matrix of the diagram is only needed once the check has passed. */
  method NewPolyhedra(diagram: seq<int>, matrix: seq<seq<int>>, initDist: seq<real>, enumerate: Enumerator,
                      extra: seq<Word> := []) returns (r: Result<Polytope>)
    requires PolyhedraCheck(|diagram|, |initDist|).Pass? ==>
      IsSquare(matrix) && BuilderShape(|diagram|, |matrix|) &&
      EnumeratorSound(enumerate, GroupPresentation(Range(|matrix|), CoxeterRelators(matrix, extra), true))
    ensures r.Ok? <==> |diagram| == 3 && |initDist| == 3
    ensures r.Err? ==> r.message == PolyhedraMessage
    ensures r.Ok? ==>
      fresh(r.value) && r.value.Valid() && r.value.Unbuilt() && r.value.family == Wythoff &&
      |matrix| == 3 && r.value.matrix == matrix && r.value.active == ActiveFlags(initDist) &&
      r.value.rels == CoxeterRelators(matrix, extra)
  {
    var check := PolyhedraCheck(|diagram|, |initDist|);
    if check.Fail? {
      return Err(check.message);
    }
    AcceptedLengthsAgree(|diagram|, |initDist|, |matrix|);
    var p := new Polytope.Base(matrix, initDist, extra, enumerate);
    return Ok(p);
  }

  /** `Polychora(coxeter_diagram, init_dist, extra_relations=())`: refused unless the diagram has
      length 6 and the distances length 4; otherwise a Coxeter-case polytope of four mirrors. */
  method NewPolychora(diagram: seq<int>, matrix: seq<seq<int>>, initDist: seq<real>, enumerate: Enumerator,
                      extra: seq<Word> := []) returns (r: Result<Polytope>)
    requires PolychoraCheck(|diagram|, |initDist|).Pass? ==>
      IsSquare(matrix) && BuilderShape(|diagram|, |matrix|) &&
      EnumeratorSound(enumerate, GroupPresentation(Range(|matrix|), CoxeterRelators(matrix, extra), true))
    ensures r.Ok? <==> |diagram| == 6 && |initDist| == 4
    ensures r.Err? ==> r.message == PolychoraMessage
    ensures r.Ok? ==>
      fresh(r.value) && r.value.Valid() && r.value.Unbuilt() && r.value.family == Wythoff &&
      |matrix| == 4 && r.value.matrix == matrix && r.value.active == ActiveFlags(initDist) &&
      r.value.rels == CoxeterRelators(matrix, extra)
  {
    var check := PolychoraCheck(|diagram|, |initDist|);
    if check.Fail? {
      return Err(check.message);
    }
    AcceptedLengthsAgree(|diagram|, |initDist|, |matrix|);
    var p := new Polytope.Base(matrix, initDist, extra, enumerate);
    return Ok(p);
  }

  /** `Polytope5D(coxeter_diagram, init_dist, extra_relations=())`, with the length check that its
      message states: refused unless the diagram has length 10 and the distances length 5. */
  method NewPolytope5D(diagram: seq<int>, matrix: seq<seq<int>>, initDist: seq<real>, enumerate: Enumerator,
                       extra: seq<Word> := []) returns (r: Result<Polytope>)
    requires Polytope5DCheck(|diagram|, |initDist|).Pass? ==>
      IsSquare(matrix) && BuilderShape(|diagram|, |matrix|) &&
      EnumeratorSound(enumerate, GroupPresentation(Range(|matrix|), CoxeterRelators(matrix, extra), true))
    ensures r.Ok? <==> |diagram| == 10 && |initDist| == 5
    ensures r.Err? ==> r.message == Polytope5DMessage
    ensures r.Ok? ==>
      fresh(r.value) && r.value.Valid() && r.value.Unbuilt() && r.value.family == Wythoff &&
      |matrix| == 5 && r.value.matrix == matrix && r.value.active == ActiveFlags(initDist) &&
      r.value.rels == CoxeterRelators(matrix, extra)
  {
    var check := Polytope5DCheck(|diagram|, |initDist|);
    if check.Fail? {
      return Err(check.message);
    }
    AcceptedLengthsAgree(|diagram|, |initDist|, |matrix|);
    var p := new Polytope.Base(matrix, initDist, extra, enumerate);
    return Ok(p);
  }

  /** `Snub(coxeter_diagram, init_dist=(1.0, 1.0, 1.0))`: the polyhedron length check of
      `Polyhedra` runs first, then the rotation presentation replaces the Coxeter one. */
  method NewSnub(diagram: seq<int>, matrix: seq<seq<int>>, enumerate: Enumerator,
                 initDist: seq<real> := [1.0, 1.0, 1.0]) returns (r: Result<Polytope>)
    requires PolyhedraCheck(|diagram|, |initDist|).Pass? ==>
      IsSquare(matrix) && BuilderShape(|diagram|, |matrix|) &&
      (|matrix| == 3 ==> EnumeratorSound(enumerate, GroupPresentation(SnubGens(), SnubRelators(matrix), false)))
    ensures r.Ok? <==> |diagram| == 3 && |initDist| == 3
    ensures r.Err? ==> r.message == PolyhedraMessage
    ensures r.Ok? ==>
      fresh(r.value) && r.value.Valid() && r.value.Unbuilt() && r.value.family == SnubPolyhedron &&
      |matrix| == 3 && r.value.matrix == matrix && r.value.active == ActiveFlags(initDist) &&
      r.value.rels == SnubRelators(matrix) && r.value.rotations == SnubRotations(matrix)
  {
    var check := PolyhedraCheck(|diagram|, |initDist|);
    if check.Fail? {
      return Err(check.message);
    }
    AcceptedLengthsAgree(|diagram|, |initDist|, |matrix|);
    var p := new Polytope.Snub(matrix, initDist, enumerate);
    return Ok(p);
  }
}
