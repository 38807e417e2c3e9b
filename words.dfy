/** Words over the generators of a finitely presented group, and the action of a
    word on the cosets of a completed coset table (the `move` primitive). */
module Words {

  /** A product of generators, written as their indices. */
  type Word = seq<nat>

  /** A coset action table: `t[c][g]` is the coset reached from coset `c` by generator `g`. */
  type Table = seq<seq<nat>>

  /** How many copies Python's `w * n` on a tuple (and `range(n)`) produces: none when `n <= 0`. */
  function Times(n: int): nat
  {
    if n <= 0 then 0 else n
  }

  /** The tuple `w * n`: `n` copies of `w`, one after the other. */
  function Repeat(w: Word, n: int): (r: Word)
    ensures |r| == |w| * Times(n)
    decreases Times(n)
  {
    if n <= 0 then [] else w + Repeat(w, n - 1)
  }

  /** Every letter of `w` names one of `n` generators. */
  predicate WordOver(w: Word, n: nat)
  {
    forall k | 0 <= k < |w| :: w[k] < n
  }

  /** Every word of `ws` names only generators below `n`. */
  predicate AllOver(ws: seq<Word>, n: nat)
  {
    forall k | 0 <= k < |ws| :: WordOver(ws[k], n)
  }

  /** Number of generator columns of a table (that of its first row). */
  function Width(t: Table): nat
  {
    if |t| == 0 then 0 else |t[0]|
  }

  /** Every row has one entry per generator and every entry is a coset of the table. */
  predicate IsActionTable(t: Table)
  {
    forall c | 0 <= c < |t| :: |t[c]| == Width(t) && forall g | 0 <= g < |t[c]| :: t[c][g] < |t|
  }

  /** A non-empty action table over exactly `n` generators. */
  predicate TableFor(t: Table, n: nat)
  {
    IsActionTable(t) && |t| >= 1 && Width(t) == n
  }

  /** The coset reached from `v` by applying the letters of `w` left to right. */
  function Walk(t: Table, v: nat, w: Word): (r: nat)
    requires IsActionTable(t) && v < |t| && WordOver(w, Width(t))
    ensures r < |t|
    decreases |w|
  {
    if w == [] then v else Walk(t, t[v][w[0]], w[1..])
  }

  /** The relator `r` holds at every coset: walking `r` from any coset returns to it. */
  predicate Respects(t: Table, r: Word)
    requires IsActionTable(t) && WordOver(r, Width(t))
  {
    forall c | 0 <= c < |t| :: Walk(t, c, r) == c
  }

  lemma {:induction false} RepeatSucc(w: Word, n: nat)
    ensures Repeat(w, n + 1) == Repeat(w, n) + w
    decreases n
  {
    if n > 0 {
      RepeatSucc(w, n - 1);
      assert Repeat(w, n + 1) == w + Repeat(w, n) == w + (Repeat(w, n - 1) + w);
    }
  }

  /** The letters of `w * n` are the letters of `w`, so the repeat stays over the same generators. */
  lemma {:induction false} RepeatOver(w: Word, n: int, g: nat)
    requires WordOver(w, g)
    ensures WordOver(Repeat(w, n), g)
    decreases Times(n)
  {
    if n > 0 {
      RepeatOver(w, n - 1, g);
      var r := Repeat(w, n - 1);
      assert Repeat(w, n) == w + r;
      forall k | 0 <= k < |w + r| ensures (w + r)[k] < g {
        if k >= |w| { assert (w + r)[k] == r[k - |w|]; }
      }
    }
  }

  /** `(i, j) * c` alternates `i` at even positions and `j` at odd ones, `2c` letters in all. */
  lemma {:induction false} RepeatAlternates(i: nat, j: nat, c: int, k: nat)
    requires k < 2 * Times(c)
    ensures |Repeat([i, j], c)| == 2 * Times(c)
    ensures Repeat([i, j], c)[k] == if k % 2 == 0 then i else j
    decreases Times(c)
  {
    if k >= 2 {
      RepeatAlternates(i, j, c - 1, k - 2);
      assert Repeat([i, j], c) == [i, j] + Repeat([i, j], c - 1);
    }
  }

  /** Walking a concatenation is walking its two parts in turn. */
  lemma {:induction false} WalkAppend(t: Table, v: nat, u: Word, w: Word)
    requires IsActionTable(t) && v < |t| && WordOver(u, Width(t)) && WordOver(w, Width(t))
    ensures WordOver(u + w, Width(t))
    ensures Walk(t, v, u + w) == Walk(t, Walk(t, v, u), w)
    decreases |u|
  {
    assert WordOver(u + w, Width(t)) by {
      forall k | 0 <= k < |u + w| ensures (u + w)[k] < Width(t) {
        if k >= |u| { assert (u + w)[k] == w[k - |u|]; }
      }
    }
    if u != [] {
      var next := t[v][u[0]];
      assert (u + w)[0] == u[0] && (u + w)[1..] == u[1..] + w;
      assert WordOver(u[1..], Width(t));
      WalkAppend(t, next, u[1..], w);
      assert Walk(t, v, u) == Walk(t, next, u[1..]);
      assert Walk(t, v, u + w) == Walk(t, next, u[1..] + w);
    } else {
      assert u + w == w;
    }
  }

  /** `move` is a right action of the free monoid on the cosets: the empty word fixes every
      coset and a concatenation acts as its parts in order. */
  lemma WalkIsAction(t: Table, v: nat, u: Word, w: Word)
    requires IsActionTable(t) && v < |t| && WordOver(u, Width(t)) && WordOver(w, Width(t))
    ensures Walk(t, v, []) == v
    ensures WordOver(u + w, Width(t)) && Walk(t, v, u + w) == Walk(t, Walk(t, v, u), w)
  {
    WalkAppend(t, v, u, w);
  }

  /** One more turn of a repeated word is one more walk along it. */
  lemma WalkRepeatSucc(t: Table, v: nat, w: Word, k: nat)
    requires IsActionTable(t) && v < |t| && WordOver(w, Width(t))
    ensures WordOver(Repeat(w, k), Width(t)) && WordOver(Repeat(w, k + 1), Width(t))
    ensures Walk(t, v, Repeat(w, k + 1)) == Walk(t, Walk(t, v, Repeat(w, k)), w)
  {
    RepeatOver(w, k, Width(t));
    RepeatOver(w, k + 1, Width(t));
    RepeatSucc(w, k);
    WalkAppend(t, v, Repeat(w, k), w);
  }

  /** If `w^m` is a relator, then walking `w` from the `k`-th point of the orbit
      `v, v w, v w^2, ...` reaches the next point, and from the last point it returns to `v`. */
  lemma WalkRepeatCycle(t: Table, v: nat, w: Word, m: nat, k: nat)
    requires IsActionTable(t) && v < |t| && WordOver(w, Width(t))
    requires k < m
    requires WordOver(Repeat(w, m), Width(t)) && Respects(t, Repeat(w, m))
    ensures WordOver(Repeat(w, k), Width(t)) && WordOver(Repeat(w, k + 1), Width(t))
    ensures Walk(t, Walk(t, v, Repeat(w, k)), w) == Walk(t, v, Repeat(w, k + 1))
    ensures k + 1 == m ==> Walk(t, Walk(t, v, Repeat(w, k)), w) == v
  {
    WalkRepeatSucc(t, v, w, k);
  }
}
