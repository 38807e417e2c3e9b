/** The orbit engine as values: the stabilizer generators chosen for each orbit type, the
    base vertex, edge and face of each type, and the orbit lists obtained by moving the base
    element along every coset word. The coset enumerator is a parameter: given a
    presentation and subgroup generators it returns one word per coset and, for the vertex
    cosets, the action table that `move` walks. */
module Orbits {
  import opened Words
  import opened Symmetry

  datatype Option<T> = None | Some(value: T)

  /** What the coset enumerator returns: the coset words (`get_words()`) and the action table. */
  datatype CosetTable = CosetTable(words: seq<Word>, table: Table)

  /** The coset enumerator, run to completion on a presentation and subgroup generators. */
  type Enumerator = (GroupPresentation, seq<Word>) -> CosetTable

  /** One word per coset, every word and every table entry over the `n` generators. */
  predicate WellFormedCosets(ct: CosetTable, n: nat)
  {
    TableFor(ct.table, n) && |ct.words| == |ct.table| && AllOver(ct.words, n)
  }

  /** The enumerator returns a well-formed table for every choice of subgroup generators. */
  ghost predicate EnumeratorSound(enum: Enumerator, p: GroupPresentation)
  {
    forall sub: seq<Word> :: WellFormedCosets(enum(p, sub), |p.gens|)
  }

  /** An edge is a pair of vertex indices, a face a cycle of vertex indices. */
  type Edge = (nat, nat)
  type Face = seq<nat>

  /** Sum of the lengths of the lists (how `num_edges` and `num_faces` grow). */
  function TotalLength<T>(lists: seq<seq<T>>): nat
  {
    if lists == [] then 0 else TotalLength(lists[..|lists| - 1]) + |lists[|lists| - 1]|
  }

  /** Appending one list adds its length. */
  lemma TotalLengthSnoc<T>(lists: seq<seq<T>>, l: seq<T>)
    ensures TotalLength(lists + [l]) == TotalLength(lists) + |l|
  {
    assert (lists + [l])[..|lists|] == lists;
  }

  lemma TotalLengthAppend<T>(lists: seq<seq<T>>, more: seq<seq<T>>)
    ensures TotalLength(lists + more) == TotalLength(lists) + TotalLength(more)
    decreases |more|
  {
    if more != [] {
      var last := |more| - 1;
      assert (lists + more)[..|lists + more| - 1] == lists + more[..last];
      TotalLengthAppend(lists, more[..last]);
    } else {
      assert lists + more == lists;
    }
  }

  // ---------------------------------------------------------------------------------------
  // Stabilizer generators

  /** The indices below `upto` whose flag is set, in increasing order. */
  function Selected(keep: seq<bool>, upto: nat): (r: seq<nat>)
    requires upto <= |keep|
    ensures forall k | 0 <= k < |r| :: r[k] < upto && keep[r[k]]
  {
    if upto == 0 then [] else Selected(keep, upto - 1) + (if keep[upto - 1] then [upto - 1] else [])
  }

  /** The one-letter words `(s,)`. */
  function Singletons(s: seq<nat>): (r: seq<Word>)
    ensures |r| == |s| && forall k | 0 <= k < |s| :: r[k] == [s[k]]
  {
    seq(|s|, k requires 0 <= k < |s| => [s[k]])
  }

  /** `Selected` lists exactly the flagged indices below `upto`, strictly increasing. */
  lemma {:induction false} SelectedExactly(keep: seq<bool>, upto: nat, s: nat)
    requires upto <= |keep|
    ensures s in Selected(keep, upto) <==> s < upto && keep[s]
    ensures forall a, b | 0 <= a < b < |Selected(keep, upto)| :: Selected(keep, upto)[a] < Selected(keep, upto)[b]
  {
    if upto > 0 {
      SelectedExactly(keep, upto - 1, s);
      var prev := Selected(keep, upto - 1);
      var r := Selected(keep, upto);
      assert r == prev + (if keep[upto - 1] then [upto - 1] else []);
      forall a, b | 0 <= a < b < |r| ensures r[a] < r[b] {
        if b >= |prev| { assert r[a] == prev[a]; }
      }
    }
  }

  /** The inactive mirrors, as flags. */
  function Inactive(active: seq<bool>): (r: seq<bool>)
    ensures |r| == |active| && forall i | 0 <= i < |active| :: r[i] == !active[i]
  {
    seq(|active|, i requires 0 <= i < |active| => !active[i])
  }

  /** Generators of the vertex stabilizer: `[(i,) for i, a in enumerate(active) if not a]`. */
  function InactiveMirrors(active: seq<bool>): (r: seq<Word>)
    ensures forall k | 0 <= k < |r| :: |r[k]| == 1 && r[k][0] < |active| && !active[r[k][0]]
  {
    Singletons(Selected(Inactive(active), |active|))
  }

  /** The vertex stabilizer is generated by exactly the inactive mirrors, each once, in
      index order. */
  lemma InactiveMirrorsExactly(active: seq<bool>, s: nat)
    ensures [s] in InactiveMirrors(active) <==> s < |active| && !active[s]
    ensures forall k | 0 <= k < |InactiveMirrors(active)| ::
      |InactiveMirrors(active)[k]| == 1 && InactiveMirrors(active)[k][0] < |active|
    ensures forall a, b | 0 <= a < b < |InactiveMirrors(active)| ::
      InactiveMirrors(active)[a][0] < InactiveMirrors(active)[b][0]
  {
    var sel := Selected(Inactive(active), |active|);
    SelectedExactly(Inactive(active), |active|, s);
    if s in sel {
      var k :| 0 <= k < |sel| && sel[k] == s;
      assert InactiveMirrors(active)[k] == [s];
    }
  }

  /** Every generator `x` of `sub` commutes with generator `s`: `m[x][s] == 2`. */
  predicate Commutes(m: seq<seq<int>>, sub: Word, s: nat)
    requires IsSquare(m) && WordOver(sub, |m|) && s < |m|
  {
    forall x | 0 <= x < |sub| :: m[sub[x]][s] == 2
  }

  /** The flags of the generators that commute with all of `sub` and fix the initial vertex. */
  function OrthogonalFlags(m: seq<seq<int>>, active: seq<bool>, sub: Word): (r: seq<bool>)
    requires IsSquare(m) && |active| == |m| && WordOver(sub, |m|)
    ensures |r| == |m|
  {
    seq(|m|, s requires 0 <= s < |m| => Commutes(m, sub, s) && !active[s])
  }

  /** `get_orthogonal_stabilizing_mirrors(sub)`. */
  function OrthogonalMirrors(m: seq<seq<int>>, active: seq<bool>, sub: Word): (r: seq<Word>)
    requires IsSquare(m) && |active| == |m| && WordOver(sub, |m|)
    ensures forall k | 0 <= k < |r| ::
      |r[k]| == 1 && r[k][0] < |m| && !active[r[k][0]] && Commutes(m, sub, r[k][0])
  {
    Singletons(Selected(OrthogonalFlags(m, active, sub), |m|))
  }

  /** The orthogonal stabilizing mirrors of `sub` are exactly the `(s,)` with `s` inactive
      and `m[x][s] == 2` for every `x` in `sub`, each once, in increasing `s`. */
  lemma OrthogonalMirrorsExactly(m: seq<seq<int>>, active: seq<bool>, sub: Word, s: nat)
    requires IsSquare(m) && |active| == |m| && WordOver(sub, |m|)
    ensures [s] in OrthogonalMirrors(m, active, sub) <==>
      s < |m| && !active[s] && forall x | 0 <= x < |sub| :: m[sub[x]][s] == 2
    ensures forall k | 0 <= k < |OrthogonalMirrors(m, active, sub)| ::
      |OrthogonalMirrors(m, active, sub)[k]| == 1 && OrthogonalMirrors(m, active, sub)[k][0] < |m|
    ensures forall a, b | 0 <= a < b < |OrthogonalMirrors(m, active, sub)| ::
      OrthogonalMirrors(m, active, sub)[a][0] < OrthogonalMirrors(m, active, sub)[b][0]
  {
    var flags := OrthogonalFlags(m, active, sub);
    var sel := Selected(flags, |m|);
    SelectedExactly(flags, |m|, s);
    if s in sel {
      var k :| 0 <= k < |sel| && sel[k] == s;
      assert OrthogonalMirrors(m, active, sub)[k] == [s];
    }
    if [s] in OrthogonalMirrors(m, active, sub) {
      var k :| 0 <= k < |sel| && Singletons(sel)[k] == [s];
      assert sel[k] == s;
    }
  }

  /** Generators of the stabilizer of the base edge of type `i`. */
  function EdgeStabilizer(m: seq<seq<int>>, active: seq<bool>, i: nat): (r: seq<Word>)
    requires IsSquare(m) && |active| == |m| && i < |m|
    ensures |r| >= 1 && r[0] == [i]
    ensures forall k | 1 <= k < |r| :: |r[k]| == 1 && r[k][0] < |m| && !active[r[k][0]] && m[i][r[k][0]] == 2
  {
    var more := OrthogonalMirrors(m, active, [i]);
    assert forall k | 0 <= k < |more| :: Commutes(m, [i], more[k][0]) && [i][0] == i;
    [[i]] + more
  }

  /** Generators of the stabilizer of the base face of type `(i, j)`. */
  function FaceStabilizer(m: seq<seq<int>>, active: seq<bool>, i: nat, j: nat): (r: seq<Word>)
    requires IsSquare(m) && |active| == |m| && i < |m| && j < |m|
    ensures |r| >= 2 && r[0] == [i] && r[1] == [j]
    ensures forall k | 2 <= k < |r| ::
      |r[k]| == 1 && r[k][0] < |m| && !active[r[k][0]] && m[i][r[k][0]] == 2 && m[j][r[k][0]] == 2
  {
    var more := OrthogonalMirrors(m, active, [i, j]);
    assert forall k | 0 <= k < |more| :: Commutes(m, [i, j], more[k][0]) && [i, j][0] == i && [i, j][1] == j;
    [[i], [j]] + more
  }

  // ---------------------------------------------------------------------------------------
  // Moving edges and faces

  /** Every entry is a coset of the table. */
  predicate OnTable(t: Table, f: Face)
  {
    forall k | 0 <= k < |f| :: f[k] < |t|
  }

  /** `tuple(move(v, w) for v in f)`. */
  function FaceImage(t: Table, f: Face, w: Word): (r: Face)
    requires IsActionTable(t) && OnTable(t, f) && WordOver(w, Width(t))
    ensures |r| == |f| && OnTable(t, r)
  {
    seq(|f|, k requires 0 <= k < |f| => Walk(t, f[k], w))
  }

  /** The images of a base face under every coset word: one face per word, each as long as
      the base face. */
  function FaceOrbit(t: Table, f: Face, words: seq<Word>): (r: seq<Face>)
    requires IsActionTable(t) && OnTable(t, f) && AllOver(words, Width(t))
    ensures |r| == |words|
    ensures forall k | 0 <= k < |r| :: |r[k]| == |f| && OnTable(t, r[k])
  {
    seq(|words|, k requires 0 <= k < |words| => FaceImage(t, f, words[k]))
  }

  /** The image of a base edge under a word. */
  function EdgeImage(t: Table, e: Edge, w: Word): (r: Edge)
    requires IsActionTable(t) && e.0 < |t| && e.1 < |t| && WordOver(w, Width(t))
    ensures r.0 < |t| && r.1 < |t|
  {
    (Walk(t, e.0, w), Walk(t, e.1, w))
  }

  /** The images of a base edge under every coset word. */
  function EdgeOrbit(t: Table, e: Edge, words: seq<Word>): (r: seq<Edge>)
    requires IsActionTable(t) && e.0 < |t| && e.1 < |t| && AllOver(words, Width(t))
    ensures |r| == |words|
    ensures forall k | 0 <= k < |r| :: r[k].0 < |t| && r[k].1 < |t|
  {
    seq(|words|, k requires 0 <= k < |words| => EdgeImage(t, e, words[k]))
  }

  // ---------------------------------------------------------------------------------------
  // Coxeter case: edges

  /** The shared hypotheses of the Coxeter-case orbit lists. */
  ghost predicate CoxeterContext(m: seq<seq<int>>, active: seq<bool>, t: Table, enum: Enumerator, p: GroupPresentation)
  {
    IsSquare(m) && |active| == |m| && |p.gens| == |m| && TableFor(t, |m|) && EnumeratorSound(enum, p)
  }

  lemma PrefixOver(i: nat, w: Word, n: nat)
    requires i < n && WordOver(w, n)
    ensures WordOver([i] + w, n)
  {
    forall k | 0 <= k < |[i] + w| ensures ([i] + w)[k] < n {
      if k > 0 { assert ([i] + w)[k] == w[k - 1]; }
    }
  }

  /** The edges of type `i` as the source lists them: `(move(0, w), move(0, (i,) + w))`. */
  function CoxeterEdgeList(t: Table, i: nat, words: seq<Word>): (r: seq<Edge>)
    requires TableFor(t, Width(t)) && i < Width(t) && AllOver(words, Width(t))
    ensures |r| == |words|
  {
    seq(|words|, k requires 0 <= k < |words| =>
      PrefixOver(i, words[k], Width(t));
      (Walk(t, 0, words[k]), Walk(t, 0, [i] + words[k])))
  }

  /** The edges of type `i` are the orbit of the base edge `(v0, v0 ρi)` under the coset words. */
  lemma CoxeterEdgeListIsOrbit(t: Table, i: nat, words: seq<Word>)
    requires TableFor(t, Width(t)) && i < Width(t) && AllOver(words, Width(t))
    ensures CoxeterEdgeList(t, i, words) == EdgeOrbit(t, (0, Walk(t, 0, [i])), words)
  {
    forall k | 0 <= k < |words|
      ensures CoxeterEdgeList(t, i, words)[k] == EdgeOrbit(t, (0, Walk(t, 0, [i])), words)[k]
    {
      WalkAppend(t, 0, [i], words[k]);
    }
  }

  /** The edge lists appended for mirrors `0 .. upto - 1`: one per active mirror. */
  function CoxeterEdgeLists(m: seq<seq<int>>, active: seq<bool>, t: Table, enum: Enumerator,
                            p: GroupPresentation, upto: nat): (r: seq<seq<Edge>>)
    requires CoxeterContext(m, active, t, enum, p) && upto <= |active|
    ensures |r| <= upto
  {
    if upto == 0 then []
    else
      var i := upto - 1;
      CoxeterEdgeLists(m, active, t, enum, p, i) +
      (if active[i] then [CoxeterEdgeList(t, i, enum(p, EdgeStabilizer(m, active, i)).words)] else [])
  }

  /** One edge list per active mirror, in mirror order (inactive mirrors add none); the list
      of mirror `i` is the orbit of the base edge `(v0, v0 ρi)` under the coset words of the
      subgroup generated by `ρi` and its orthogonal stabilizing mirrors, one edge per word. */
  lemma {:induction false} CoxeterEdgeListsByMirror(m: seq<seq<int>>, active: seq<bool>, t: Table,
                                                    enum: Enumerator, p: GroupPresentation, upto: nat)
    requires CoxeterContext(m, active, t, enum, p) && upto <= |active|
    ensures var lists, mirrors := CoxeterEdgeLists(m, active, t, enum, p, upto), Selected(active, upto);
      |lists| == |mirrors| &&
      forall k | 0 <= k < |lists| ::
        var words := enum(p, EdgeStabilizer(m, active, mirrors[k])).words;
        lists[k] == EdgeOrbit(t, (0, Walk(t, 0, [mirrors[k]])), words) && |lists[k]| == |words|
  {
    if upto > 0 {
      var i := upto - 1;
      CoxeterEdgeListsByMirror(m, active, t, enum, p, i);
      if active[i] {
        var words := enum(p, EdgeStabilizer(m, active, i)).words;
        assert WellFormedCosets(enum(p, EdgeStabilizer(m, active, i)), |p.gens|);
        CoxeterEdgeListIsOrbit(t, i, words);
      }
    }
  }

  // ---------------------------------------------------------------------------------------
  // Coxeter case: faces

  /** `[move(0, w * k) for k in range(c)]`: the orbit of `v0` under the rotation `w`. */
  function CycleFace(t: Table, w: Word, c: int): (f: Face)
    requires TableFor(t, Width(t)) && WordOver(w, Width(t))
    ensures |f| == Times(c) && OnTable(t, f)
  {
    seq(Times(c), k requires 0 <= k < Times(c) =>
      RepeatOver(w, k, Width(t));
      Walk(t, 0, Repeat(w, k)))
  }

  /** Vertex `x` of the alternating polygon: `move(0, (i, j) * k)` for `x = 2k` and
      `move(0, (j,) + (i, j) * k)` for `x = 2k + 1`. */
  function AlternatingVertex(t: Table, i: nat, j: nat, x: nat): (v: nat)
    requires TableFor(t, Width(t)) && i < Width(t) && j < Width(t)
    ensures v < |t|
  {
    var w := Repeat([i, j], x / 2);
    RepeatOver([i, j], x / 2, Width(t));
    PrefixOver(j, w, Width(t));
    if x % 2 == 0 then Walk(t, 0, w) else Walk(t, 0, [j] + w)
  }

  /** The `2c`-gon with vertices `move(0, (i, j) * k)` and `move(0, (j,) + (i, j) * k)`,
      alternately, for `k` in `range(c)`. */
  function AlternatingFace(t: Table, i: nat, j: nat, c: int): (f: Face)
    requires TableFor(t, Width(t)) && i < Width(t) && j < Width(t)
    ensures |f| == 2 * Times(c) && OnTable(t, f)
  {
    seq(2 * Times(c), x requires 0 <= x < 2 * Times(c) => AlternatingVertex(t, i, j, x))
  }

  /** The base face of type `(i, j)`, or `None` when the pair generates no face. */
  function BaseFace(t: Table, active: seq<bool>, m: seq<seq<int>>, i: nat, j: nat): (f: Option<Face>)
    requires IsSquare(m) && |active| == |m| && i < |m| && j < |m| && TableFor(t, |m|)
    ensures f.Some? <==> (active[i] && active[j]) || ((active[i] || active[j]) && m[i][j] > 2)
    ensures f.Some? ==>
      OnTable(t, f.value) && |f.value| == if active[i] && active[j] then 2 * Times(m[i][j]) else m[i][j]
  {
    if active[i] && active[j] then Some(AlternatingFace(t, i, j, m[i][j]))
    else if (active[i] || active[j]) && m[i][j] > 2 then Some(CycleFace(t, [i, j], m[i][j]))
    else None
  }

  /** The case analysis of faces: two active mirrors give a `2m`-gon, exactly one active
      mirror gives an `m`-gon when the mirrors are not orthogonal, and otherwise there is
      no face. For a Coxeter matrix every base face has at least three vertices. */
  lemma BaseFaceCases(t: Table, active: seq<bool>, m: seq<seq<int>>, i: nat, j: nat)
    requires IsSquare(m) && |active| == |m| && i < j < |m| && TableFor(t, |m|)
    ensures var f := BaseFace(t, active, m, i, j);
      (active[i] && active[j] ==> f.Some? && |f.value| == 2 * Times(m[i][j])) &&
      (active[i] != active[j] && m[i][j] > 2 ==> f.Some? && |f.value| == m[i][j]) &&
      (active[i] != active[j] && m[i][j] <= 2 ==> f.None?) &&
      (!active[i] && !active[j] ==> f.None?) &&
      (f.Some? ==> OnTable(t, f.value)) &&
      (IsCoxeterMatrix(m) && f.Some? ==> |f.value| >= 3)
  {
    if IsCoxeterMatrix(m) {
      assert m[i][j] >= 2;
    }
  }

  /** Vertex `2k + b` of the alternating polygon is `v0` (for `b = 0`) or `v0 ρj` (for `b = 1`)
      moved by `(i, j)^k`. */
  lemma AlternatingVertexWalk(t: Table, i: nat, j: nat, k: nat, b: nat)
    requires TableFor(t, Width(t)) && i < Width(t) && j < Width(t) && b < 2
    ensures WordOver(Repeat([i, j], k), Width(t))
    ensures AlternatingVertex(t, i, j, 2 * k + b) ==
      Walk(t, if b == 0 then 0 else Walk(t, 0, [j]), Repeat([i, j], k))
  {
    assert (2 * k + b) / 2 == k && (2 * k + b) % 2 == b;
    RepeatOver([i, j], k, Width(t));
    WalkAppend(t, 0, [j], Repeat([i, j], k));
  }

  /** Moving vertex `2k + b` of the `2c`-gon along `(i, j)` reaches vertex `2(k + 1) + b`, or
      vertex `b` from the last pair of vertices. */
  lemma AlternatingVertexStep(t: Table, i: nat, j: nat, c: nat, k: nat, b: nat)
    requires TableFor(t, Width(t)) && i < Width(t) && j < Width(t) && b < 2 && k < c
    requires WordOver(Repeat([i, j], c), Width(t)) && Respects(t, Repeat([i, j], c))
    ensures Walk(t, AlternatingVertex(t, i, j, 2 * k + b), [i, j]) ==
      AlternatingVertex(t, i, j, if k + 1 < c then 2 * (k + 1) + b else b)
  {
    var start := if b == 0 then 0 else Walk(t, 0, [j]);
    WalkRepeatCycle(t, start, [i, j], c, k);
    AlternatingVertexWalk(t, i, j, k, b);
    if k + 1 < c {
      AlternatingVertexWalk(t, i, j, k + 1, b);
    } else {
      AlternatingVertexWalk(t, i, j, 0, b);
      assert Repeat([i, j], 0) == [];
    }
  }

  /** The `2c`-gon of two active mirrors moved along `(i, j)` advances by two vertices. */
  lemma AlternatingFaceClosed(t: Table, i: nat, j: nat, c: int, x: nat)
    requires TableFor(t, Width(t)) && i < Width(t) && j < Width(t) && x < 2 * Times(c)
    requires WordOver(Repeat([i, j], c), Width(t)) && Respects(t, Repeat([i, j], c))
    ensures var f := AlternatingFace(t, i, j, c);
      FaceImage(t, f, [i, j])[x] == f[if x + 2 < |f| then x + 2 else x + 2 - |f|]
  {
    var k, b := x / 2, x % 2;
    assert x == 2 * k + b;
    AlternatingVertexStep(t, i, j, Times(c), k, b);
  }

  /** A base face is closed under its rotation `ρi ρj`: when `(i, j)^m` holds in the vertex
      table, moving the face along `(i, j)` shifts it cyclically, by one vertex for an
      `m`-gon and by two for a `2m`-gon. */
  lemma BaseFaceClosed(t: Table, active: seq<bool>, m: seq<seq<int>>, i: nat, j: nat, x: nat)
    requires IsSquare(m) && |active| == |m| && i < j < |m| && TableFor(t, |m|)
    requires WordOver(Repeat([i, j], m[i][j]), |m|) && Respects(t, Repeat([i, j], m[i][j]))
    requires BaseFace(t, active, m, i, j).Some? && x < |BaseFace(t, active, m, i, j).value|
    ensures var f := BaseFace(t, active, m, i, j).value;
      var step := if active[i] && active[j] then 2 else 1;
      FaceImage(t, f, [i, j])[x] == f[if x + step < |f| then x + step else x + step - |f|]
  {
    if active[i] && active[j] {
      AlternatingFaceClosed(t, i, j, m[i][j], x);
    } else {
      CycleFaceClosed(t, [i, j], m[i][j], x);
    }
  }

  /** Flags of the pairs of `combinations(range(n), 2)` that generate a face. */
  function FaceFlags(m: seq<seq<int>>, active: seq<bool>): (r: seq<bool>)
    requires IsSquare(m) && |active| == |m|
    ensures |r| == |Pairs(|m|)|
  {
    var ps := Pairs(|m|);
    seq(|ps|, q requires 0 <= q < |ps| =>
      var (i, j) := ps[q];
      (active[i] && active[j]) || ((active[i] || active[j]) && m[i][j] > 2))
  }

  /** The faces of the `q`-th pair, which generates a face: its base face moved by every coset
      word of its stabilizer. */
  function PairFaceOrbit(m: seq<seq<int>>, active: seq<bool>, t: Table, enum: Enumerator,
                         p: GroupPresentation, q: nat): (r: seq<Face>)
    requires CoxeterContext(m, active, t, enum, p) && q < |Pairs(|m|)| && FaceFlags(m, active)[q]
    ensures var (i, j) := Pairs(|m|)[q];
      |r| == |enum(p, FaceStabilizer(m, active, i, j)).words|
  {
    var (i, j) := Pairs(|m|)[q];
    assert WellFormedCosets(enum(p, FaceStabilizer(m, active, i, j)), |p.gens|);
    FaceOrbit(t, BaseFace(t, active, m, i, j).value, enum(p, FaceStabilizer(m, active, i, j)).words)
  }

  /** A face-generating pair `(i, j)` has a base face, and its list holds one face per coset
      word of the face stabilizer, every face as long as the base face. */
  lemma PairFaceOrbitShape(m: seq<seq<int>>, active: seq<bool>, t: Table, enum: Enumerator,
                           p: GroupPresentation, q: nat)
    requires CoxeterContext(m, active, t, enum, p) && q < |Pairs(|m|)| && FaceFlags(m, active)[q]
    ensures var (i, j) := Pairs(|m|)[q];
      var f0 := BaseFace(t, active, m, i, j);
      var words := enum(p, FaceStabilizer(m, active, i, j)).words;
      var r := PairFaceOrbit(m, active, t, enum, p, q);
      f0.Some? && |r| == |words| &&
      forall x | 0 <= x < |r| :: r[x] == FaceImage(t, f0.value, words[x]) && |r[x]| == |f0.value| && OnTable(t, r[x])
  {
    var (i, j) := Pairs(|m|)[q];
    assert WellFormedCosets(enum(p, FaceStabilizer(m, active, i, j)), |p.gens|);
  }

  /** The face lists appended for the first `upto` pairs. */
  function CoxeterFaceLists(m: seq<seq<int>>, active: seq<bool>, t: Table, enum: Enumerator,
                            p: GroupPresentation, upto: nat): (r: seq<seq<Face>>)
    requires CoxeterContext(m, active, t, enum, p) && upto <= |Pairs(|m|)|
    ensures |r| <= upto
  {
    if upto == 0 then []
    else
      var q := upto - 1;
      CoxeterFaceLists(m, active, t, enum, p, q) +
      (if FaceFlags(m, active)[q] then [PairFaceOrbit(m, active, t, enum, p, q)] else [])
  }

  /** Pair `q` adds its face list exactly when it generates a face. */
  lemma CoxeterFaceListsStep(m: seq<seq<int>>, active: seq<bool>, t: Table, enum: Enumerator,
                             p: GroupPresentation, q: nat, flist: seq<Face>)
    requires CoxeterContext(m, active, t, enum, p) && q < |Pairs(|m|)|
    requires FaceFlags(m, active)[q] ==> flist == PairFaceOrbit(m, active, t, enum, p, q)
    ensures CoxeterFaceLists(m, active, t, enum, p, q + 1) ==
      CoxeterFaceLists(m, active, t, enum, p, q) + (if FaceFlags(m, active)[q] then [flist] else [])
  {
  }

  /** One face list per face-generating pair, in the order of `combinations`; the list of
      pair `(i, j)` is the orbit of its base face under the coset words of the subgroup
      generated by `ρi`, `ρj` and their orthogonal stabilizing mirrors (one face per word,
      every face as long as the base face). */
  lemma {:induction false} CoxeterFaceListsByPair(m: seq<seq<int>>, active: seq<bool>, t: Table,
                                                  enum: Enumerator, p: GroupPresentation, upto: nat)
    requires CoxeterContext(m, active, t, enum, p) && upto <= |Pairs(|m|)|
    ensures var lists, pairs := CoxeterFaceLists(m, active, t, enum, p, upto), Selected(FaceFlags(m, active), upto);
      |lists| == |pairs| &&
      forall k | 0 <= k < |lists| :: FaceFlags(m, active)[pairs[k]] && lists[k] == PairFaceOrbit(m, active, t, enum, p, pairs[k])
  {
    if upto > 0 {
      var q := upto - 1;
      CoxeterFaceListsByPair(m, active, t, enum, p, q);
      var flags := FaceFlags(m, active);
      assert Selected(flags, upto) == Selected(flags, q) + (if flags[q] then [q] else []);
    }
  }

  // ---------------------------------------------------------------------------------------
  // Rotation (snub) case

  /** The shared hypotheses of the rotation-case orbit lists. */
  ghost predicate RotationContext(t: Table, rots: seq<Rotation>, vwords: seq<Word>, enum: Enumerator, p: GroupPresentation)
  {
    TableFor(t, |p.gens|) && EnumeratorSound(enum, p) && RotationsOver(rots, |p.gens|) && AllOver(vwords, |p.gens|)
  }

  /** The coset words of the edges of a rotation: those of `<rot>` when it has order 2,
      otherwise the vertex words (trivial stabilizer). */
  function RotationEdgeWords(rot: Rotation, vwords: seq<Word>, enum: Enumerator, p: GroupPresentation): seq<Word>
  {
    if rot.order == 2 then enum(p, [rot.word]).words else vwords
  }

  /** The edge lists of the first `upto` rotations: the orbit of `(v0, v0 rot)`, one per rotation. */
  function RotationEdgeLists(t: Table, rots: seq<Rotation>, vwords: seq<Word>, enum: Enumerator,
                             p: GroupPresentation, upto: nat): (r: seq<seq<Edge>>)
    requires RotationContext(t, rots, vwords, enum, p) && upto <= |rots|
    ensures |r| == upto
  {
    if upto == 0 then []
    else
      var rot := rots[upto - 1];
      assert WellFormedCosets(enum(p, [rot.word]), |p.gens|);
      RotationEdgeLists(t, rots, vwords, enum, p, upto - 1) +
      [EdgeOrbit(t, (0, Walk(t, 0, rot.word)), RotationEdgeWords(rot, vwords, enum, p))]
  }

  /** One edge list per fundamental rotation, in order, each the orbit of the base edge
      `(v0, v0 rot)`; a rotation whose order is not 2 reuses the vertex words, so its list
      has exactly one edge per vertex. */
  lemma {:induction false} RotationEdgeListsByRotation(t: Table, rots: seq<Rotation>, vwords: seq<Word>,
                                                       enum: Enumerator, p: GroupPresentation, upto: nat)
    requires RotationContext(t, rots, vwords, enum, p) && upto <= |rots|
    ensures var lists := RotationEdgeLists(t, rots, vwords, enum, p, upto);
      forall q | 0 <= q < upto ::
        lists[q] == EdgeOrbit(t, (0, Walk(t, 0, rots[q].word)), RotationEdgeWords(rots[q], vwords, enum, p)) &&
        (rots[q].order != 2 ==> |lists[q]| == |vwords|) &&
        (rots[q].order == 2 ==> |lists[q]| == |enum(p, [rots[q].word]).words|)
  {
    if upto > 0 {
      RotationEdgeListsByRotation(t, rots, vwords, enum, p, upto - 1);
    }
  }

  /** Flags of the rotations of order greater than two. */
  function FaceRotationFlags(rots: seq<Rotation>): (r: seq<bool>)
    ensures |r| == |rots|
  {
    seq(|rots|, q requires 0 <= q < |rots| => rots[q].order > 2)
  }

  /** The face lists of the first `upto` rotations: rotations of order greater than two give
      the orbit of the `order`-gon `v0, v0 rot, v0 rot^2, ...`. */
  function RotationFaceLists(t: Table, rots: seq<Rotation>, vwords: seq<Word>, enum: Enumerator,
                             p: GroupPresentation, upto: nat): (r: seq<seq<Face>>)
    requires RotationContext(t, rots, vwords, enum, p) && upto <= |rots|
    ensures |r| <= upto
  {
    if upto == 0 then []
    else
      var rot := rots[upto - 1];
      assert WellFormedCosets(enum(p, [rot.word]), |p.gens|);
      RotationFaceLists(t, rots, vwords, enum, p, upto - 1) +
      (if rot.order > 2 then [FaceOrbit(t, CycleFace(t, rot.word, rot.order), enum(p, [rot.word]).words)] else [])
  }

  /** Only rotations of order greater than two give face lists, in order, and every face of
      such a list has as many vertices as the rotation's order. */
  lemma {:induction false} RotationFaceListsByRotation(t: Table, rots: seq<Rotation>, vwords: seq<Word>,
                                                       enum: Enumerator, p: GroupPresentation, upto: nat)
    requires RotationContext(t, rots, vwords, enum, p) && upto <= |rots|
    ensures var lists, faceRots := RotationFaceLists(t, rots, vwords, enum, p, upto), Selected(FaceRotationFlags(rots), upto);
      |lists| == |faceRots| &&
      forall k | 0 <= k < |lists| ::
        var rot := rots[faceRots[k]];
        var words := enum(p, [rot.word]).words;
        rot.order > 2 && lists[k] == FaceOrbit(t, CycleFace(t, rot.word, rot.order), words) &&
        |lists[k]| == |words| && forall f | f in lists[k] :: |f| == rot.order
  {
    if upto > 0 {
      var rot := rots[upto - 1];
      RotationFaceListsByRotation(t, rots, vwords, enum, p, upto - 1);
      assert WellFormedCosets(enum(p, [rot.word]), |p.gens|);
    }
  }

  /** A face of a rotation of order `c` is closed under that rotation when `rot^c` holds in
      the vertex table: moving it along `rot` shifts it cyclically by one vertex. */
  lemma CycleFaceClosed(t: Table, w: Word, c: nat, x: nat)
    requires TableFor(t, Width(t)) && WordOver(w, Width(t)) && x < c
    requires WordOver(Repeat(w, c), Width(t)) && Respects(t, Repeat(w, c))
    ensures FaceImage(t, CycleFace(t, w, c), w)[x] == CycleFace(t, w, c)[if x + 1 < c then x + 1 else 0]
  {
    WalkRepeatCycle(t, 0, w, c, x);
    RepeatOver(w, 0, Width(t));
  }

  /** A triangle `(v0, v0 a, v0 b)` given by the words `a` and `b`. */
  datatype Triangle = Triangle(second: Word, third: Word)

  /** The snub polyhedron's extra triangle `(v0, v0 s, v0 rs)`. */
  function SnubTriangles(): (r: seq<Triangle>)
    ensures |r| == 1 && TrianglesOver(r, |SnubGens()|)
  {
    [Triangle([2], [0, 2])]
  }

  /** The snub 24-cell's four extra triangles `(v0, v0 s, v0 rs)`, `(v0, v0 t, v0 rt)`,
      `(v0, v0 s, v0 t^-1 s)` and `(v0, v0 rs, v0 t^-1 s)`. */
  function Snub24Triangles(): (r: seq<Triangle>)
    ensures |r| == 4 && TrianglesOver(r, |Snub24Gens()|)
  {
    [Triangle([2], [0, 2]), Triangle([4], [0, 4]), Triangle([2], [5, 2]), Triangle([0, 2], [5, 2])]
  }

  /** Every triangle's words name only generators below `n`. */
  predicate TrianglesOver(tris: seq<Triangle>, n: nat)
  {
    forall k | 0 <= k < |tris| :: WordOver(tris[k].second, n) && WordOver(tris[k].third, n)
  }

  /** The three vertices of a triangle. */
  function Corners(t: Table, tri: Triangle): (f: Face)
    requires TableFor(t, Width(t)) && WordOver(tri.second, Width(t)) && WordOver(tri.third, Width(t))
    ensures |f| == 3 && OnTable(t, f)
  {
    [0, Walk(t, 0, tri.second), Walk(t, 0, tri.third)]
  }

  /** The face lists of the first `upto` triangles: each triangle moved by every vertex word. */
  function TriangleLists(t: Table, tris: seq<Triangle>, vwords: seq<Word>, upto: nat): (r: seq<seq<Face>>)
    requires TableFor(t, Width(t)) && TrianglesOver(tris, Width(t)) && AllOver(vwords, Width(t)) && upto <= |tris|
    ensures |r| == upto
  {
    if upto == 0 then []
    else TriangleLists(t, tris, vwords, upto - 1) + [FaceOrbit(t, Corners(t, tris[upto - 1]), vwords)]
  }

  /** One list per triangle, each with exactly one triangle per vertex (trivial stabilizer):
      the snub polyhedron adds one such list and the snub 24-cell four. */
  lemma {:induction false} TriangleListsShape(t: Table, tris: seq<Triangle>, vwords: seq<Word>, upto: nat)
    requires TableFor(t, Width(t)) && TrianglesOver(tris, Width(t)) && AllOver(vwords, Width(t)) && upto <= |tris|
    ensures var lists := TriangleLists(t, tris, vwords, upto);
      forall k | 0 <= k < upto ::
        |lists[k]| == |vwords| && forall x | 0 <= x < |lists[k]| :: |lists[k][x]| == 3 && OnTable(t, lists[k][x])
    ensures TotalLength(TriangleLists(t, tris, vwords, upto)) == upto * |vwords|
  {
    if upto > 0 {
      TriangleListsShape(t, tris, vwords, upto - 1);
      var lists := TriangleLists(t, tris, vwords, upto);
      var prev := TriangleLists(t, tris, vwords, upto - 1);
      assert lists[..upto - 1] == prev;
      assert TotalLength(lists) == TotalLength(prev) + |vwords|;
      assert (upto - 1) * |vwords| + |vwords| == upto * |vwords|;
    }
  }
}
