# Combinatorics of Wythoff-built uniform polytopes

This project models the combinatorial core of the `polytopes` package of pywonderland
(`src/polytopes/polytopes/models.py`). A uniform polytope comes from a symmetry group
given by generators and relators. It is built in three steps:

- **Vertices.** A coset enumerator lists one word per vertex and a table of how the
  generators act on the vertices.
- **Edges.** Each kind of edge is a base edge at the initial vertex `v0`, moved by the
  coset words of its stabilizer.
- **Faces.** Each kind of face is a base polygon, moved the same way by the coset words
  of its stabilizer.

The project covers the three presentations of the source:

- **Coxeter case.** Used by `BasePolytope` and its length-checked subclasses `Polyhedra`,
  `Polychora` and `Polytope5D`:
  - the generators are the mirrors;
  - a mirror is *active* when the initial vertex is off it;
  - the relators are `(i, j)^m[i][j]`.
- **Snub polyhedron.** The rotations `r = ρ0ρ1` and `s = ρ1ρ2` with their inverses.
- **Snub 24-cell.** The rotations `r`, `s` and `t` with their inverses.

It also models the LaTeX table of the vertex words.

## Files

- `words.dfy`, module `Words`:
  - words over generators, and `Repeat` (the source's `word * n`);
  - `Walk`, the specification of `move`, which follows a word through an action table;
  - facts about walks along repeated words.
- `symmetry.dfy`, module `Symmetry`:
  - the active flags;
  - the pairs `combinations(range(n), 2)`, with proofs that they are complete, sorted
    and counted;
  - the Coxeter relators;
  - the snub and snub 24-cell presentations.
- `validation.dfy`, module `Validation`: the input-length checks of the three subclasses,
  including the 5-dimensional check as written and as intended.
- `orbits.dfy`, module `Orbits`: the orbit engine as values:
  - the stabilizer generators;
  - the base edges and faces;
  - the edge and face lists each kind of polytope appends, and lemmas that describe
    them.
- `latex.dfy`, module `Latex`: `get_latex_format` as values, with a row-by-row reference
  layout (`Tabular`) proved equal to the source's cell-by-cell one.
- `polytope.dfy`, module `Polytopes`: the class `Polytope`.
  - Its fields are updated in place as in the source: the vertex table and words, the
    edge and face lists, and the three counters.
  - Its methods follow the source's loops.
  - Each method is proved to produce exactly the lists the `Orbits` functions specify
    and to keep the counters equal to the lengths of those lists.
  - The module-level methods `NewPolyhedra`, `NewPolychora`, `NewPolytope5D` and
    `NewSnub` are the length-checked constructors. They return `Err` where the source
    raises `ValueError`.

The coset enumerator (`CosetTable(...).run()` then `get_words()`) is a parameter of type
`Enumerator`. The model requires only that, for every choice of subgroup generators, it
returns one word per coset and a total action table over the generators
(`EnumeratorSound`).

## Model

| member | source | states |
|---|---|---|
| `Symmetry.ActiveFlags` | src/polytopes/polytopes/models.py:48-49 | one flag per distance; a mirror is active exactly when its distance is non-zero |
| `Symmetry.Range` | src/polytopes/polytopes/models.py:52 | the Coxeter-case generators are `0 .. n-1` in order |
| `Symmetry.PairRow` | src/polytopes/polytopes/models.py:55-56 | the pairs with first component `i` are `(i, i+1) .. (i, n-1)` |
| `Symmetry.PairsFrom` | src/polytopes/polytopes/models.py:55-56 | every pair `(a, b)` listed from row `i` has `i <= a < b < n` |
| `Symmetry.Pairs` | src/polytopes/polytopes/models.py:55-56 | every listed pair `(i, j)` has `i < j < n` |
| `Symmetry.PairsFromSorted` | src/polytopes/polytopes/models.py:55-56 | the pairs from row `i` on are in strictly increasing lexicographic order |
| `Symmetry.PairsFromComplete` | src/polytopes/polytopes/models.py:55-56 | every pair `i <= a < b < n` is listed from row `i` |
| `Symmetry.PairsFromCount` | src/polytopes/polytopes/models.py:55-56 | there are `(n-i)(n-i-1)/2` pairs from row `i` |
| `Symmetry.PairsEnumerate` | src/polytopes/polytopes/models.py:55-56 | `combinations(range(n), 2)`: every pair `i < j < n` occurs, the list is strictly sorted (so no pair repeats), and there are `n(n-1)/2` pairs |
| `Symmetry.CoxeterRelators` | src/polytopes/polytopes/models.py:54-58 | one relator per pair followed by the extra relations, unchanged |
| `Symmetry.CoxeterRelatorShape` | src/polytopes/polytopes/models.py:55-56 | the `q`-th relator belongs to the `q`-th pair `(i, j)`, has `2 m[i][j]` letters, alternates `i, j, i, j, ...` and names only generators of the group |
| `Symmetry.SnubRelators` | src/polytopes/polytopes/models.py:280-283 | the snub polyhedron has five relators |
| `Symmetry.SnubGens` | src/polytopes/polytopes/models.py:271-272 | the four generators `r, r^-1, s, s^-1`, numbered 0 to 3 |
| `Symmetry.SnubRotations` | src/polytopes/polytopes/models.py:287-289 | the snub polyhedron has three fundamental rotations |
| `Symmetry.SnubPresentation` | src/polytopes/polytopes/models.py:271-289 | the relators and rotations name only the four generators; the relators have lengths `p`, `q`, `2 m[0][2]`, 2 and 2; the first three relators say that `r`, `s` and `rs` have their recorded orders |
| `Symmetry.Snub24Relators` | src/polytopes/polytopes/models.py:452-454 | the snub 24-cell has nine relators |
| `Symmetry.Snub24Gens` | src/polytopes/polytopes/models.py:440-441 | the six generators `r, r^-1, s, s^-1, t, t^-1`, numbered 0 to 5 |
| `Symmetry.Snub24Rotations` | src/polytopes/polytopes/models.py:457-462 | the snub 24-cell has six fundamental rotations |
| `Symmetry.Snub24RotationsOver` | src/polytopes/polytopes/models.py:441-462 | the six rotations name only the six generators |
| `Symmetry.Snub24Presentation` | src/polytopes/polytopes/models.py:441-462 | the relators name only the six generators, and the first six relators say that the six rotations have their recorded orders |
| `Symmetry.Snub24FaceRotations` | src/polytopes/polytopes/models.py:511-512 | the fixed face loop over `(0,), (2,), (4,)` visits exactly the rotations of order greater than two, in order |
| `Validation.PolyhedraCheck` | src/polytopes/polytopes/models.py:249-250 | passes if and only if both lengths are 3 |
| `Validation.PolychoraCheck` | src/polytopes/polytopes/models.py:399-400 | passes if and only if the diagram has length 6 and the distances length 4 |
| `Validation.Polytope5DCheckAsWritten` | src/polytopes/polytopes/models.py:411-412 | fails if and only if both lengths are wrong |
| `Validation.Polytope5DCheck` | src/polytopes/polytopes/models.py:411-412 | corrected check: passes if and only if the diagram has length 10 and the distances length 5 |
| `Validation.ProductGrows` | src/polytopes/polytopes/models.py:37 | `n(n-1)` grows strictly with `n`, so a diagram's length fixes its number of mirrors |
| `Validation.MirrorCount` | src/polytopes/polytopes/models.py:37 | a diagram with `n0(n0-1)/2` labels describes exactly `n0` mirrors |
| `Validation.AcceptedLengthsAgree` | src/polytopes/polytopes/models.py:248-251 | whatever a corrected check accepts has one distance per mirror: 3, 4 or 5 of each |
| `Validation.Polytope5DAsWrittenAdmitsMismatch` | src/polytopes/polytopes/models.py:411-412 | the as-written check accepts a 5-mirror diagram with 4 distances and a 3-mirror diagram with 5 distances; the corrected check refuses both |
| `Words.Repeat` | src/polytopes/polytopes/models.py:55 | `word * n` has `len(word) * max(n, 0)` letters |
| `Words.Walk` | src/polytopes/polytopes/models.py:190-197 | following a word through an action table stays on the table |
| `Words.RepeatSucc` | src/polytopes/polytopes/models.py:152-156 | `w * (n+1) == w * n + w` |
| `Words.RepeatOver` | src/polytopes/polytopes/models.py:152-156 | a repetition of a word over the generators is still over the generators |
| `Words.RepeatAlternates` | src/polytopes/polytopes/models.py:55-56 | letter `k` of `(i, j) * c` is `i` for even `k` and `j` for odd `k` |
| `Words.WalkAppend` | src/polytopes/polytopes/models.py:190-197 | moving along `u + w` is moving along `u`, then along `w` |
| `Words.WalkIsAction` | src/polytopes/polytopes/models.py:190-197 | `move` is a right action: the empty word fixes every vertex and the words compose |
| `Words.WalkRepeatSucc` | src/polytopes/polytopes/models.py:152-156 | moving along `w * (k+1)` is moving along `w * k`, then along `w` |
| `Words.WalkRepeatCycle` | src/polytopes/polytopes/models.py:152-156 | when the table respects `w * m`, `m` steps along `w` come back to the start |
| `Orbits.TotalLengthSnoc` | src/polytopes/polytopes/models.py:131-132 | appending a list adds its length to the total |
| `Orbits.TotalLengthAppend` | src/polytopes/polytopes/models.py:131-132 | the total of a concatenation is the sum of the totals |
| `Orbits.Selected` | src/polytopes/polytopes/models.py:87 | every selected index is below the bound and flagged |
| `Orbits.Singletons` | src/polytopes/polytopes/models.py:87 | `(i,)` for each selected index, in order |
| `Orbits.SelectedExactly` | src/polytopes/polytopes/models.py:87 | an index is selected if and only if it is in range and flagged; the selection is strictly increasing |
| `Orbits.Inactive` | src/polytopes/polytopes/models.py:87 | the inactive flags are the negated active flags |
| `Orbits.InactiveMirrors` | src/polytopes/polytopes/models.py:87 | `[(i,) for i, a in enumerate(active) if not a]`: every entry is a one-letter word naming an inactive mirror |
| `Orbits.InactiveMirrorsExactly` | src/polytopes/polytopes/models.py:87 | the vertex stabilizer is generated by exactly the inactive mirrors, each once, in index order |
| `Orbits.OrthogonalFlags` | src/polytopes/polytopes/models.py:206-212 | one flag per generator |
| `Orbits.OrthogonalMirrors` | src/polytopes/polytopes/models.py:199-213 | every entry is `(s,)` for a generator `s` that is inactive and commutes with every generator of `subgens` |
| `Orbits.EdgeStabilizer` | src/polytopes/polytopes/models.py:115-119 | the edge stabilizer is generated by `ρi` first, then mirrors `s` that are inactive with `m[i][s] == 2` |
| `Orbits.FaceStabilizer` | src/polytopes/polytopes/models.py:147-148 | the face stabilizer is generated by `ρi`, `ρj`, then mirrors `s` that are inactive with `m[i][s] == m[j][s] == 2` |
| `Orbits.OrthogonalMirrorsExactly` | src/polytopes/polytopes/models.py:199-213 | `(s,)` is returned if and only if `s` is inactive and `m[x][s] == 2` for every `x` of `subgens`; each generator appears once, in order |
| `Orbits.FaceImage` | src/polytopes/polytopes/models.py:175 | moving a face keeps its number of vertices and its vertices on the table |
| `Orbits.FaceOrbit` | src/polytopes/polytopes/models.py:174-176 | one face per coset word, each as long as the base face |
| `Orbits.EdgeImage` | src/polytopes/polytopes/models.py:326 | a moved edge joins two vertices of the table |
| `Orbits.EdgeOrbit` | src/polytopes/polytopes/models.py:325-327 | one edge per coset word |
| `Orbits.PrefixOver` | src/polytopes/polytopes/models.py:128 | `(i,) + word` is a word over the generators |
| `Orbits.CoxeterEdgeList` | src/polytopes/polytopes/models.py:124-129 | one edge per coset word |
| `Orbits.CoxeterEdgeListIsOrbit` | src/polytopes/polytopes/models.py:126-129 | `(move(0, word), move(0, (i,) + word))` is the base edge `(v0, v0 ρi)` moved by `word` |
| `Orbits.CoxeterEdgeLists` | src/polytopes/polytopes/models.py:112-132 | the edge lists of mirrors `0 .. upto-1`: at most one list per mirror (only active mirrors add one) |
| `Orbits.CoxeterEdgeListsByMirror` | src/polytopes/polytopes/models.py:112-132 | one edge list per active mirror, in index order; the list of mirror `i` is the orbit of `(v0, v0 ρi)` under the coset words of `<ρi, orthogonal stabilizing mirrors>`, one edge per word |
| `Orbits.CycleFace` | src/polytopes/polytopes/models.py:161-162 | the `m`-gon of one active mirror has `m` vertices on the table |
| `Orbits.AlternatingVertex` | src/polytopes/polytopes/models.py:152-156 | every vertex of the `2m`-gon lies on the table |
| `Orbits.AlternatingFace` | src/polytopes/polytopes/models.py:151-156 | the polygon of two active mirrors has `2m` vertices on the table |
| `Orbits.BaseFace` | src/polytopes/polytopes/models.py:150-166 | a base face exists if and only if both mirrors are active, or exactly one is and `m > 2`; it lies on the table and has `2m` vertices (both active) or `m` (one active) |
| `Orbits.BaseFaceCases` | src/polytopes/polytopes/models.py:150-166 | two active mirrors give a `2m`-gon; one active mirror gives an `m`-gon when `m > 2` and no face otherwise; no active mirror gives no face; for a Coxeter matrix every base face has at least 3 vertices |
| `Orbits.AlternatingVertexWalk` | src/polytopes/polytopes/models.py:152-156 | vertex `2k + b` is `v0` (for `b = 0`) or `v0 ρj` (for `b = 1`), moved by `(i, j)^k` |
| `Orbits.AlternatingVertexStep` | src/polytopes/polytopes/models.py:152-156 | moving vertex `2k + b` along `(i, j)` gives vertex `2(k+1) + b`, wrapping round at the end |
| `Orbits.AlternatingFaceClosed` | src/polytopes/polytopes/models.py:151-156 | the rotation `ρi ρj` shifts the `2m`-gon cyclically by two vertices |
| `Orbits.BaseFaceClosed` | src/polytopes/polytopes/models.py:146-163 | when `(i, j)^m` holds in the vertex table, the rotation `ρi ρj` maps the base face onto itself, shifting it by two vertices (`2m`-gon) or one vertex (`m`-gon) |
| `Orbits.FaceFlags` | src/polytopes/polytopes/models.py:144-166 | one flag per pair of mirrors |
| `Orbits.PairFaceOrbit` | src/polytopes/polytopes/models.py:168-176 | the faces of a face-generating pair: one per coset word of its face stabilizer |
| `Orbits.PairFaceOrbitShape` | src/polytopes/polytopes/models.py:168-176 | a face-generating pair has a base face; its list has one face per coset word, each the base face moved by that word |
| `Orbits.CoxeterFaceListsStep` | src/polytopes/polytopes/models.py:150-179 | pair `q` appends its face list exactly when it generates a face |
| `Orbits.CoxeterFaceLists` | src/polytopes/polytopes/models.py:144-179 | the face lists of the first `upto` pairs: at most one list per pair |
| `Orbits.CoxeterFaceListsByPair` | src/polytopes/polytopes/models.py:144-179 | one face list per face-generating pair, in `combinations` order, each the orbit of that pair's base face |
| `Orbits.RotationEdgeLists` | src/polytopes/polytopes/models.py:310-330 | one edge list per fundamental rotation |
| `Orbits.RotationEdgeWords` | src/polytopes/polytopes/models.py:313-320 | the coset words of `<rot>` for a rotation of order 2, the vertex words otherwise (the definition; `RotationEdgeListsByRotation` states the consequence) |
| `Orbits.RotationEdgeListsByRotation` | src/polytopes/polytopes/models.py:302-330 | the list of rotation `rot` is the orbit of `(v0, v0 rot)`: under the coset words of `<rot>` when the order is 2, under the vertex words otherwise (one edge per vertex) |
| `Orbits.FaceRotationFlags` | src/polytopes/polytopes/models.py:345-347 | one flag per rotation |
| `Orbits.RotationFaceLists` | src/polytopes/polytopes/models.py:345-362 | the face lists of the first `upto` rotations: at most one list per rotation (only those of order greater than 2 add one) |
| `Orbits.RotationFaceListsByRotation` | src/polytopes/polytopes/models.py:345-362 | exactly the rotations of order greater than 2 give face lists, in order; each is the orbit of the `order`-gon `v0, v0 rot, ...` under the coset words of `<rot>`, and every face has `order` vertices |
| `Orbits.CycleFaceClosed` | src/polytopes/polytopes/models.py:351 | when `rot^order` holds in the vertex table, `rot` shifts the face `v0, v0 rot, ...` cyclically by one vertex |
| `Orbits.Corners` | src/polytopes/polytopes/models.py:367 | a triangle has three vertices on the table |
| `Orbits.TriangleLists` | src/polytopes/polytopes/models.py:364-374 | one face list per extra triangle |
| `Orbits.TriangleListsShape` | src/polytopes/polytopes/models.py:364-374 | every triangle list has one triangle per vertex word, so the triangles add `count * num_vertices` faces |
| `Orbits.SnubTriangles` | src/polytopes/polytopes/models.py:364-367 | the snub polyhedron has one extra triangle `(v0, v0 s, v0 rs)`, over its four generators |
| `Orbits.Snub24Triangles` | src/polytopes/polytopes/models.py:526-536 | the snub 24-cell has four extra triangles, over its six generators |
| `Latex.PyMod` | src/polytopes/polytopes/models.py:231-234 | Python's `%`: the remainder lies between zero and the divisor, on the divisor's side |
| `Latex.ModSucc` | src/polytopes/polytopes/models.py:231-234 | going to the next cell advances the column by one, wrapping from the last column to the first |
| `Latex.ModAddSelf` | src/polytopes/polytopes/models.py:231-234 | a full row later the column is the same |
| `Latex.Digit` | src/polytopes/polytopes/models.py:225-227 | the decimal digit of `d` |
| `Latex.NatToString` | src/polytopes/polytopes/models.py:225-227 | `str(i)` is a non-empty string of decimal digits |
| `Latex.NatToStringRoundTrip` | src/polytopes/polytopes/models.py:225-227 | reading the digits back gives the number; there is no leading zero |
| `Latex.NatToStringInjective` | src/polytopes/polytopes/models.py:225-227 | different numbers get different numerals (in snub mode a generator and its inverse, `2k` and `2k+1`, still share the subscript `k`) |
| `Latex.Subscript` | src/polytopes/polytopes/models.py:225-227 | `symbol + "_{" + str(i) + "}"` has three more characters than the symbol and the numeral together |
| `Latex.Shown` | src/polytopes/polytopes/models.py:224-227 | the subscript of letter `g`: `g // 2` in snub mode (so `2 r <= g < 2 r + 2`), `g` otherwise |
| `Latex.Letters` | src/polytopes/polytopes/models.py:225-227 | the letters of a word, each rendered as a subscripted symbol; every letter takes at least four characters |
| `Latex.WordToLatex` | src/polytopes/polytopes/models.py:220-227 | the result is `e` if and only if the word is empty |
| `Latex.LettersAppend` | src/polytopes/polytopes/models.py:225-227 | the rendering of a concatenation is the concatenation of the renderings |
| `Latex.LetterShown` | src/polytopes/polytopes/models.py:224-227 | a single generator `g` shows as `symbol_{g // 2}` for a snub and `symbol_{g}` otherwise |
| `Latex.Cells` | src/polytopes/polytopes/models.py:230-233 | one cell per vertex word, the word's rendering |
| `Latex.Entry` | src/polytopes/polytopes/models.py:231-235 | what one loop round writes for cell `i`: `\\` first when `i > 0` and `i % cols == 0` (Python remainder), the cell, then `&` unless `i % cols == cols - 1` (the definition; `BodySingle` and `RowBody` use it) |
| `Latex.BodyAt` | src/polytopes/polytopes/models.py:229-235 | the loop's output for a run of cells starting at cell number `start` (the definition; `BodyAppend` and `BodyIsTabular` state its properties) |
| `Latex.LatexArray` | src/polytopes/polytopes/models.py:215-237 | the result is the division error if and only if there are words and zero columns; otherwise the `array` environment around the body |
| `Latex.BodyAppend` | src/polytopes/polytopes/models.py:229-235 | the body of a concatenation is the two bodies, the second starting at the shifted position |
| `Latex.BodySingle` | src/polytopes/polytopes/models.py:231-235 | the body of one cell is its row break (if a row starts), the cell and its `&` (unless it ends a row) |
| `Latex.BodySnoc` | src/polytopes/polytopes/models.py:230-235 | one loop round appends the next cell's entry |
| `Latex.RowBody` | src/polytopes/polytopes/models.py:231-235 | the rest of a row is its cells joined by `&`, with a trailing `&` if the row is not complete |
| `Latex.FirstRow` | src/polytopes/polytopes/models.py:231-235 | a row that starts at a column boundary is a row break (except at the start) and then the row |
| `Latex.BodyIsTabular` | src/polytopes/polytopes/models.py:229-235 | the cell-by-cell body equals the row-by-row layout: full rows joined by `&`, separated by `\\`, the last row terminated by `&` if incomplete |
| `Latex.LatexArrayTabular` | src/polytopes/polytopes/models.py:215-237 | for `cols >= 1`, the result is the `array` environment with `cols` `l` columns around the row-by-row layout of the cells |
| `Polytopes.Polytope.Base` | src/polytopes/polytopes/models.py:23-71 | the mirrors are the generators, the active flags follow the distances, the relators are the Coxeter relators then the extra relations, and nothing has been computed yet |
| `Polytopes.Polytope.Snub` | src/polytopes/polytopes/models.py:266-289 | the four-generator rotation presentation replaces the Coxeter one, with the three rotations and their orders |
| `Polytopes.Polytope.Snub24Cell` | src/polytopes/polytopes/models.py:436-462 | the fixed diagram passes the polychoron check with four mirrors, all active; the six-generator presentation and its six rotations |
| `Polytopes.Polytope.VertexStabilizer` | src/polytopes/polytopes/models.py:87 | the inactive mirrors in the Coxeter case (each a one-letter word naming an inactive mirror); nothing for a snub (`coxeter=False` with no subgroup generators, :296 and :468) |
| `Polytopes.Polytope.EdgeLists` | src/polytopes/polytopes/models.py:96-132 | what `get_edges` appends: at most one list per mirror in the Coxeter case, exactly one per rotation for a snub |
| `Polytopes.Polytope.FaceLists` | src/polytopes/polytopes/models.py:134-179 | what `get_faces` appends: at most one list per pair of mirrors in the Coxeter case; for a snub one list per extra triangle plus at most one per rotation |
| `Polytopes.Polytope.Move` | src/polytopes/polytopes/models.py:190-197 | the vertex reached is `Walk(vtable, vertex, word)` |
| `Polytopes.Polytope.OrthogonalStabilizingMirrors` | src/polytopes/polytopes/models.py:199-213 | the result is the list whose contents `OrthogonalMirrorsExactly` characterises |
| `Polytopes.Polytope.MoveFace` | src/polytopes/polytopes/models.py:175 | each vertex of the face moved by the word |
| `Polytopes.Polytope.FaceOrbitOf` | src/polytopes/polytopes/models.py:174-176 | the face orbit under the coset words |
| `Polytopes.Polytope.EdgeOrbitOf` | src/polytopes/polytopes/models.py:325-327 | the edge orbit under the coset words |
| `Polytopes.Polytope.EdgesOfMirror` | src/polytopes/polytopes/models.py:119-129 | the edges of type `i` are the orbit of `(v0, v0 ρi)` under the coset words of the edge stabilizer |
| `Polytopes.Polytope.AppendEdges` | src/polytopes/polytopes/models.py:131-132 | the list is appended and `num_edges` still counts every edge |
| `Polytopes.Polytope.AppendFaces` | src/polytopes/polytopes/models.py:178-179 | the list is appended and `num_faces` still counts every face |
| `Polytopes.Polytope.CycleBaseFace` | src/polytopes/polytopes/models.py:161-162 | the loop builds the `m`-gon `move(0, (i, j) * k)` |
| `Polytopes.Polytope.AlternatingBaseFace` | src/polytopes/polytopes/models.py:152-156 | the loop builds the `2m`-gon, two vertices per round |
| `Polytopes.Polytope.GetVertices` | src/polytopes/polytopes/models.py:87-92 | the vertex table and words are the enumerator's for the stabilizer of the inactive mirrors (trivial for a snub), and `num_vertices` is the number of words |
| `Polytopes.Polytope.MirrorEdges` | src/polytopes/polytopes/models.py:113-132 | one round of the edge loop: an active mirror appends its orbit |
| `Polytopes.Polytope.CoxeterEdges` | src/polytopes/polytopes/models.py:112-132 | appends exactly the edge lists of `CoxeterEdgeListsByMirror`, with `num_edges` counting them |
| `Polytopes.Polytope.EdgesOfRotation` | src/polytopes/polytopes/models.py:313-327 | the edges of a rotation are the orbit of `(v0, v0 rot)` under the words `RotationEdgeWords` chooses |
| `Polytopes.Polytope.RotationStepEdges` | src/polytopes/polytopes/models.py:310-330 | one round of the snub edge loop |
| `Polytopes.Polytope.RotationEdges` | src/polytopes/polytopes/models.py:302-330 | appends exactly the edge lists of `RotationEdgeListsByRotation`, with `num_edges` counting them |
| `Polytopes.Polytope.GetEdges` | src/polytopes/polytopes/models.py:96-132 | `get_edges` of each family appends its edge lists and keeps the object valid |
| `Polytopes.Polytope.FacesOfPair` | src/polytopes/polytopes/models.py:145-176 | the pair generates a face exactly when `FaceFlags` says so, and then its list is the orbit of its base face |
| `Polytopes.Polytope.PairFaces` | src/polytopes/polytopes/models.py:144-179 | one round of the face loop over pairs |
| `Polytopes.Polytope.CoxeterFaces` | src/polytopes/polytopes/models.py:144-179 | appends exactly the face lists of `CoxeterFaceListsByPair`, with `num_faces` counting them |
| `Polytopes.Polytope.FacesOfRotation` | src/polytopes/polytopes/models.py:348-359 | the faces of a rotation are the orbit of its `order`-gon under the coset words of `<rot>` |
| `Polytopes.Polytope.RotationStepFaces` | src/polytopes/polytopes/models.py:345-362 | one round of the rotation face loop: a rotation of order greater than 2 appends its orbit |
| `Polytopes.Polytope.RotationFaces` | src/polytopes/polytopes/models.py:345-362 | appends exactly the face lists of `RotationFaceListsByRotation` |
| `Polytopes.Polytope.FacesOfTriangle` | src/polytopes/polytopes/models.py:367-371 | the orbit of the triangle `(v0, v0 a, v0 b)` under every vertex word |
| `Polytopes.Polytope.TriangleStepFaces` | src/polytopes/polytopes/models.py:533-543 | one round of the triangle loop |
| `Polytopes.Polytope.TriangleFaces` | src/polytopes/polytopes/models.py:533-543 | appends one orbit per extra triangle, as `TriangleListsShape` describes |
| `Polytopes.Polytope.SnubFaces` | src/polytopes/polytopes/models.py:332-374 | the rotation faces, then the extra triangles |
| `Polytopes.Polytope.GetFaces` | src/polytopes/polytopes/models.py:134-179 | `get_faces` of each family appends its face lists and keeps the object valid |
| `Polytopes.Polytope.LatexFormat` | src/polytopes/polytopes/models.py:215-237 | once the vertices exist, the loop's result is `LatexArray` (defaults `\rho`, 3 columns, not snub), whose layout `LatexArrayTabular` describes; zero columns with any word raise the division error |
| `Polytopes.Polytope.BuildGeometry` | src/polytopes/polytopes/models.py:73-76 | vertices, then edges, then faces, each as its specification says |
| `Polytopes.NewPolyhedra` | src/polytopes/polytopes/models.py:248-251 | succeeds if and only if both lengths are 3, else fails with the source's message; on success a fresh, valid, unbuilt polytope of three mirrors; the matrix and enumerator are only required once the check passes; `extra` defaults to no relations |
| `Polytopes.NewPolychora` | src/polytopes/polytopes/models.py:398-401 | succeeds if and only if the lengths are 6 and 4, else fails with the source's message; on success four mirrors; the matrix is only required once the check passes |
| `Polytopes.NewPolytope5D` | src/polytopes/polytopes/models.py:410-413 | corrected check: succeeds if and only if the lengths are 10 and 5; on success five mirrors; the matrix is only required once the check passes |
| `Polytopes.NewSnub` | src/polytopes/polytopes/models.py:266-289 | the polyhedron length check first (the matrix is only required once it passes), then the snub presentation; `initDist` defaults to `[1.0, 1.0, 1.0]` |

## Left out

- **Coordinates.** `transform`, `vertices_coords`, mirrors, reflection matrices,
  `get_init_point` and the stereographic projection `Polytope5D.proj4d`. These are
  floating-point linear algebra: the model keeps vertex indices and words, not
  positions. (`proj4d` also ignores its `pole` argument and uses the constant 1.3.)
- **Coset enumeration.** `todd_coxeter.CosetTable` is not part of this model. It is the
  `Enumerator` parameter, assumed to return well-formed coset words and action tables.
  Nothing is proved about the group it enumerates. In particular, the face-closure lemmas
  (`BaseFaceClosed`, `CycleFaceClosed`) assume the relator holds in the vertex table.
- **Coxeter matrix.** `helpers.get_coxeter_matrix` is not part of this model. The
  constructors take the Coxeter matrix as an input. Only when the length check passes do
  they require a square matrix, the relation `2 |diagram| == n (n - 1)` between the
  diagram length and the matrix size, and a sound enumerator. A diagram of any length
  that fails the check (four labels for `Polyhedra`, say) gets the `ValueError` result
  whatever matrix is passed.
- **POV-Ray export.** `get_povray_data` and `export_polytope_data` produce scene text
  for rendering, outside the combinatorics.
- **Distance lengths.** `Polytopes.Polytope.Base` requires as many distances as mirrors.
  In the source a mismatch fails inside numpy when the initial point is built.
- **Snub vertices.** `Polytopes.Polytope.Snub` and `Snub24Cell` also run the base
  constructor's Coxeter set-up. The model keeps only the fields that the snub code then
  uses or overwrites.
- **Call order.** Some calls fail in the source if they come before `get_vertices`:
  - `get_edges` and `get_faces` fail because the table is `None`;
  - `get_latex_format` fails because `vwords` is not yet set (`AttributeError`).

  The model requires that the table exists; `GetVertices` sets the table and the words
  together. Its `vwords` field starts empty only because a Dafny field needs a value.
- **Dictionary order.** The rotation dictionaries are iterated in insertion order, as in
  Python 3.7 and later.
- **Snub 24-cell faces.** `Snub24Cell.get_faces` loops over the fixed keys
  `(0,), (2,), (4,)`. The model uses the shared rule "rotations of order greater than
  two", and `Symmetry.Snub24FaceRotations` proves the two select the same rotations in
  the same order.
- `Latex.PyMod`: states only the range of Python's remainder, not its congruence with
  `a`. The LaTeX proofs use it for positive divisors only, where it is Dafny's `%`.
- **Negative column counts.** With negative `cols` the body is laid out by Python's
  remainder, as in the source. The row-by-row reference layout `Latex.Tabular` is stated
  only for `cols >= 1`.

## Findings

| source | as written | input that shows it | evidently intended | confidence | as-written member | corrected member |
|---|---|---|---|---|---|---|
| src/polytopes/polytopes/models.py:411-412 | `Polytope5D` raises only when `len(coxeter_diagram) != 10 and len(init_dist) != 5`, so one wrong length alone is accepted | a 10-label diagram (five mirrors) with 4 distances, or a 3-label diagram (three mirrors) with 5 distances | raise when either length is wrong (`or`), as the error message says | not executed | `Validation.Polytope5DAsWrittenAdmitsMismatch` | `Validation.Polytope5DCheck` |
