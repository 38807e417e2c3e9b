/** The input-length checks of the three Coxeter-case polytope families. A diagram of
    `d` branch labels describes `n` mirrors with `2 d == n (n - 1)` (one label per pair of
    mirrors), and the initial vertex needs one distance per mirror. */
module Validation {

  /** The outcome of a constructor's length check: `Fail` stands for the `ValueError`. */
  datatype Outcome = Pass | Fail(message: string)

  const PolyhedraMessage := "Length error: the inputs must all have length 3"
  const PolychoraMessage := "Length error: the input coxeter_diagram must have length 6 and init_dist has length 4"
  const Polytope5DMessage := "Length error: the input coxeter_diagram must have length 10 and init_dist has length 5"

  /** The diagram builder turns `diagramLen` branch labels into `mirrors` mirrors. */
  predicate BuilderShape(diagramLen: nat, mirrors: nat)
  {
    2 * diagramLen == mirrors * (mirrors - 1)
  }

  /** `not len(coxeter_diagram) == len(init_dist) == 3` raises. */
  function PolyhedraCheck(diagramLen: nat, distLen: nat): (r: Outcome)
    ensures r.Pass? <==> diagramLen == 3 && distLen == 3
  {
    if !(diagramLen == distLen && distLen == 3) then
      Fail(PolyhedraMessage)
    else
      Pass
  }

  /** `not (len(coxeter_diagram) == 6 and len(init_dist) == 4)` raises. */
  function PolychoraCheck(diagramLen: nat, distLen: nat): (r: Outcome)
    ensures r.Pass? <==> diagramLen == 6 && distLen == 4
  {
    if !(diagramLen == 6 && distLen == 4) then
      Fail(PolychoraMessage)
    else
      Pass
  }

  /** The 5-dimensional check as written: `len(coxeter_diagram) != 10 and len(init_dist) != 5`
      raises, so only inputs with both lengths wrong are refused. */
  function Polytope5DCheckAsWritten(diagramLen: nat, distLen: nat): (r: Outcome)
    ensures r.Fail? <==> diagramLen != 10 && distLen != 5
  {
    if diagramLen != 10 && distLen != 5 then
      Fail(Polytope5DMessage)
    else
      Pass
  }

  /** The 5-dimensional check as its message states it: both lengths must be right. */
  function Polytope5DCheck(diagramLen: nat, distLen: nat): (r: Outcome)
    ensures r.Pass? <==> diagramLen == 10 && distLen == 5
  {
    if diagramLen != 10 || distLen != 5 then
      Fail(Polytope5DMessage)
    else
      Pass
  }

  /** `n (n - 1)` grows strictly with `n >= 1`. */
  lemma {:induction false} ProductGrows(a: nat, b: nat)
    requires 1 <= a < b
    ensures a * (a - 1) < b * (b - 1)
    decreases b - a
  {
    assert (a + 1) * a == a * (a - 1) + 2 * a;
    if a + 1 < b {
      ProductGrows(a + 1, b);
    }
  }

  /** A diagram with as many labels as `n0` mirrors have pairs describes exactly `n0`
      mirrors (for `n0 >= 2`). */
  lemma MirrorCount(n0: nat, mirrors: nat)
    requires n0 >= 2 && mirrors * (mirrors - 1) == n0 * (n0 - 1)
    ensures mirrors == n0
  {
    if mirrors < n0 {
      if mirrors >= 1 {
        ProductGrows(mirrors, n0);
      } else {
        ProductGrows(1, n0);
      }
    } else if mirrors > n0 {
      ProductGrows(n0, mirrors);
    }
  }

  /** Whatever the three corrected checks accept gives one distance per mirror, which is
      what building the initial vertex needs. */
  lemma AcceptedLengthsAgree(diagramLen: nat, distLen: nat, mirrors: nat)
    requires BuilderShape(diagramLen, mirrors)
    ensures PolyhedraCheck(diagramLen, distLen).Pass? ==> mirrors == distLen == 3
    ensures PolychoraCheck(diagramLen, distLen).Pass? ==> mirrors == distLen == 4
    ensures Polytope5DCheck(diagramLen, distLen).Pass? ==> mirrors == distLen == 5
  {
    if diagramLen == 3 { MirrorCount(3, mirrors); }
    if diagramLen == 6 { MirrorCount(4, mirrors); }
    if diagramLen == 10 { MirrorCount(5, mirrors); }
  }

  /** The check as written lets a diagram of five mirrors through with four distances, and
      a diagram of three mirrors with five distances: a mirror count and a distance count
      that differ. */
  lemma Polytope5DAsWrittenAdmitsMismatch(mirrors10: nat, mirrors3: nat)
    requires BuilderShape(10, mirrors10) && BuilderShape(3, mirrors3)
    ensures Polytope5DCheckAsWritten(10, 4).Pass? && mirrors10 != 4
    ensures Polytope5DCheckAsWritten(3, 5).Pass? && mirrors3 != 5
    ensures Polytope5DCheck(10, 4).Fail? && Polytope5DCheck(3, 5).Fail?
  {
    MirrorCount(5, mirrors10);
    MirrorCount(3, mirrors3);
  }
}
