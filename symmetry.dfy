/** The symmetry model of a Wythoff construction: which mirrors are active, the
    generators, and the relators handed to the coset enumerator, for the Coxeter case
    and for the two rotation-subgroup (snub) cases. */
module Symmetry {
  import opened Words

  /** What the coset enumerator is given besides the subgroup generators: the generators,
      the relators, and whether every generator is an involution (the Coxeter mode). */
  datatype GroupPresentation = GroupPresentation(gens: seq<nat>, rels: seq<Word>, coxeter: bool)

  /** A fundamental rotation of a snub presentation: a word and its order. */
  datatype Rotation = Rotation(word: Word, order: int)

  /** A square matrix of integers (the Coxeter matrix produced by the diagram builder). */
  predicate IsSquare(m: seq<seq<int>>)
  {
    forall i | 0 <= i < |m| :: |m[i]| == |m|
  }

  /** The Coxeter matrix invariants: symmetric, ones on the diagonal, at least 2 elsewhere. */
  predicate IsCoxeterMatrix(m: seq<seq<int>>)
  {
    IsSquare(m) &&
    (forall i | 0 <= i < |m| :: m[i][i] == 1) &&
    (forall i, j | 0 <= i < |m| && 0 <= j < |m| && i != j :: m[i][j] >= 2) &&
    (forall i, j | 0 <= i < |m| && 0 <= j < |m| :: m[i][j] == m[j][i])
  }

  /** `tuple(range(n))`. */
  function Range(n: nat): (r: seq<nat>)
    ensures |r| == n && forall k | 0 <= k < n :: r[k] == k
  {
    seq(n, k requires 0 <= k < n => k)
  }

  /** A mirror is active exactly when the initial vertex has a non-zero distance to it. */
  function ActiveFlags(initDist: seq<real>): (active: seq<bool>)
    ensures |active| == |initDist|
    ensures forall i | 0 <= i < |initDist| :: active[i] <==> initDist[i] != 0.0
  {
    seq(|initDist|, i requires 0 <= i < |initDist| => initDist[i] != 0.0)
  }

  /** The pairs `(i, j)` with `j` running from `i + 1` to `n - 1`. */
  function PairRow(i: nat, n: nat): (r: seq<(nat, nat)>)
    ensures |r| == if i < n then n - i - 1 else 0
    ensures forall k | 0 <= k < |r| :: r[k] == (i, i + 1 + k)
  {
    if i < n then seq(n - i - 1, k requires 0 <= k < n - i - 1 => (i, i + 1 + k)) else []
  }

  /** The pairs of `combinations(range(n), 2)` whose first component is at least `i`. */
  function PairsFrom(i: nat, n: nat): (r: seq<(nat, nat)>)
    ensures forall k | 0 <= k < |r| :: i <= r[k].0 < r[k].1 < n
    decreases n - i
  {
    if i >= n then [] else PairRow(i, n) + PairsFrom(i + 1, n)
  }

  /** `combinations(range(n), 2)`: every pair of generators `i < j`. */
  function Pairs(n: nat): (r: seq<(nat, nat)>)
    ensures forall k | 0 <= k < |r| :: r[k].0 < r[k].1 < n
  {
    PairsFrom(0, n)
  }

  /** Lexicographic order on pairs. */
  predicate LexLess(p: (nat, nat), q: (nat, nat))
  {
    p.0 < q.0 || (p.0 == q.0 && p.1 < q.1)
  }

  lemma {:induction false} PairsFromSorted(i: nat, n: nat)
    ensures forall a, b | 0 <= a < b < |PairsFrom(i, n)| :: LexLess(PairsFrom(i, n)[a], PairsFrom(i, n)[b])
    decreases n - i
  {
    if i < n {
      PairsFromSorted(i + 1, n);
      var row, rest := PairRow(i, n), PairsFrom(i + 1, n);
      assert PairsFrom(i, n) == row + rest;
      forall a, b | 0 <= a < b < |row + rest| ensures LexLess((row + rest)[a], (row + rest)[b]) {
        if b < |row| {
        } else if a < |row| {
          assert (row + rest)[b] == rest[b - |row|];
        } else {
          assert (row + rest)[a] == rest[a - |row|] && (row + rest)[b] == rest[b - |row|];
        }
      }
    }
  }

  lemma {:induction false} PairsFromComplete(i: nat, n: nat, a: nat, b: nat)
    requires i <= a < b < n
    ensures (a, b) in PairsFrom(i, n)
    decreases n - i
  {
    var row, rest := PairRow(i, n), PairsFrom(i + 1, n);
    assert PairsFrom(i, n) == row + rest;
    if a == i {
      assert row[b - i - 1] == (a, b);
    } else {
      PairsFromComplete(i + 1, n, a, b);
    }
  }

  lemma {:induction false} PairsFromCount(i: nat, n: nat)
    requires i <= n
    ensures 2 * |PairsFrom(i, n)| == (n - i) * (n - i - 1)
    decreases n - i
  {
    if i < n {
      PairsFromCount(i + 1, n);
      var d := n - i;
      assert |PairsFrom(i, n)| == (d - 1) + |PairsFrom(i + 1, n)|;
      assert (d - 1) * (d - 2) + 2 * (d - 1) == d * (d - 1);
    }
  }

  /** `combinations(range(n), 2)` lists every pair `i < j` exactly once, in lexicographic
      order, `n (n - 1) / 2` of them. */
  lemma PairsEnumerate(n: nat, i: nat, j: nat)
    requires i < j < n
    ensures (i, j) in Pairs(n)
    ensures forall a, b | 0 <= a < b < |Pairs(n)| :: LexLess(Pairs(n)[a], Pairs(n)[b])
    ensures 2 * |Pairs(n)| == n * (n - 1)
  {
    PairsFromComplete(0, n, i, j);
    PairsFromSorted(0, n);
    PairsFromCount(0, n);
  }

  /** The Coxeter relators `(i, j) * m[i][j]` for every pair `i < j`, then the extra relations. */
  function CoxeterRelators(m: seq<seq<int>>, extra: seq<Word>): (r: seq<Word>)
    requires IsSquare(m)
    ensures |r| == |Pairs(|m|)| + |extra|
    ensures r[|Pairs(|m|)|..] == extra
  {
    var ps := Pairs(|m|);
    seq(|ps|, q requires 0 <= q < |ps| => Repeat([ps[q].0, ps[q].1], m[ps[q].0][ps[q].1])) + extra
  }

  /** The `q`-th relator belongs to the `q`-th pair `(i, j)`: it alternates `i` and `j`,
      has `2 m[i][j]` letters and names only generators of the group. */
  lemma CoxeterRelatorShape(m: seq<seq<int>>, extra: seq<Word>, q: nat)
    requires IsSquare(m) && q < |Pairs(|m|)|
    ensures var (i, j) := Pairs(|m|)[q];
      var r := CoxeterRelators(m, extra)[q];
      i < j < |m| && r == Repeat([i, j], m[i][j]) && |r| == 2 * Times(m[i][j]) &&
      WordOver(r, |m|) &&
      forall k | 0 <= k < |r| :: r[k] == if k % 2 == 0 then i else j
  {
    var (i, j) := Pairs(|m|)[q];
    var r := CoxeterRelators(m, extra)[q];
    forall k | 0 <= k < |r| ensures r[k] == if k % 2 == 0 then i else j {
      RepeatAlternates(i, j, m[i][j], k);
    }
  }

  /** Generators `(r, r^-1, s, s^-1)` of the rotation subgroup of a polyhedral group. */
  function SnubGens(): seq<nat>
  {
    [0, 1, 2, 3]
  }

  /** `r^p = s^q = (rs)^m[0][2] = r r^-1 = s s^-1 = 1` with `p = m[0][1]`, `q = m[1][2]`. */
  function SnubRelators(m: seq<seq<int>>): (r: seq<Word>)
    requires IsSquare(m) && |m| == 3
    ensures |r| == 5
  {
    [Repeat([0], m[0][1]), Repeat([2], m[1][2]), Repeat([0, 2], m[0][2]), [0, 1], [2, 3]]
  }

  /** The fundamental rotations `r`, `s`, `rs` with their orders `p`, `q`, `m[0][2]`. */
  function SnubRotations(m: seq<seq<int>>): (r: seq<Rotation>)
    requires IsSquare(m) && |m| == 3
    ensures |r| == 3
  {
    [Rotation([0], m[0][1]), Rotation([2], m[1][2]), Rotation([0, 2], m[0][2])]
  }

  /** Generators `(r, r^-1, s, s^-1, t, t^-1)` of the rotation subgroup of [3^(1,1,1)]. */
  function Snub24Gens(): seq<nat>
  {
    Range(6)
  }

  /** `r^3 = s^3 = t^3 = (rs)^2 = (rt)^2 = (s^-1 t)^2 = 1` and the three inverse pairs. */
  function Snub24Relators(): (r: seq<Word>)
    ensures |r| == 9
  {
    [Repeat([0], 3), Repeat([2], 3), Repeat([4], 3),
     Repeat([0, 2], 2), Repeat([0, 4], 2), Repeat([3, 4], 2),
     [0, 1], [2, 3], [4, 5]]
  }

  /** The fundamental rotations `r, s, t, rs, rt, s^-1 t` with their orders. */
  function Snub24Rotations(): (r: seq<Rotation>)
    ensures |r| == 6
  {
    [Rotation([0], 3), Rotation([2], 3), Rotation([4], 3),
     Rotation([0, 2], 2), Rotation([0, 4], 2), Rotation([3, 4], 2)]
  }

  /** Every rotation names only generators below `n`. */
  predicate RotationsOver(rots: seq<Rotation>, n: nat)
  {
    forall q | 0 <= q < |rots| :: WordOver(rots[q].word, n)
  }

  /** The snub polyhedron's presentation: the relators are words over the four generators,
      their lengths are `p`, `q`, `2 m[0][2]`, 2 and 2, and the `q`-th relator says that
      the `q`-th fundamental rotation has its recorded order. */
  lemma SnubPresentation(m: seq<seq<int>>)
    requires IsSquare(m) && |m| == 3
    ensures RotationsOver(SnubRotations(m), |SnubGens()|)
    ensures AllOver(SnubRelators(m), |SnubGens()|)
    ensures var r := SnubRelators(m);
      |r[0]| == Times(m[0][1]) && |r[1]| == Times(m[1][2]) && |r[2]| == 2 * Times(m[0][2]) &&
      |r[3]| == 2 && |r[4]| == 2
    ensures forall q | 0 <= q < |SnubRotations(m)| ::
      SnubRelators(m)[q] == Repeat(SnubRotations(m)[q].word, SnubRotations(m)[q].order)
  {
    var r := SnubRelators(m);
    RepeatOver([0], m[0][1], 4);
    RepeatOver([2], m[1][2], 4);
    RepeatOver([0, 2], m[0][2], 4);
    assert WordOver(r[3], 4) && WordOver(r[4], 4);
  }

  /** The six fundamental rotations of the snub 24-cell are words over its six generators. */
  lemma Snub24RotationsOver()
    ensures RotationsOver(Snub24Rotations(), |Snub24Gens()|)
  {
    var rots := Snub24Rotations();
    forall q | 0 <= q < |rots| ensures WordOver(rots[q].word, 6) {
      assert |rots[q].word| <= 2 && forall k | 0 <= k < |rots[q].word| :: rots[q].word[k] <= 4;
    }
  }

  /** The snub 24-cell's presentation: relators over the six generators, the first six of
      them the order relations of the six fundamental rotations. */
  lemma Snub24Presentation()
    ensures AllOver(Snub24Relators(), |Snub24Gens()|)
    ensures forall q | 0 <= q < |Snub24Rotations()| ::
      Snub24Relators()[q] == Repeat(Snub24Rotations()[q].word, Snub24Rotations()[q].order)
  {
    var r, rots := Snub24Relators(), Snub24Rotations();
    Snub24RotationsOver();
    forall q | 0 <= q < 6 ensures WordOver(r[q], 6) {
      RepeatOver(rots[q].word, rots[q].order, 6);
    }
    assert WordOver(r[6], 6) && WordOver(r[7], 6) && WordOver(r[8], 6);
  }

  /** Exactly `r`, `s`, `t`, the first three fundamental rotations of the snub 24-cell, have
      order greater than two, so they are the rotations `(0,)`, `(2,)`, `(4,)` whose faces are
      built. */
  lemma Snub24FaceRotations()
    ensures forall q | 0 <= q < |Snub24Rotations()| :: Snub24Rotations()[q].order > 2 <==> q < 3
    ensures seq(3, q requires 0 <= q < 3 => Snub24Rotations()[q].word) == [[0], [2], [4]]
  {
  }
}
