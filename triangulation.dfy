/**
 * The dart-count check run before a polygonal face is triangulated: a face of
 * n darts needs exactly 2 * (n - 3) fresh darts to receive its n - 3 new edges.
 */
module Triangulation {
  import opened Wrappers

  datatype TriangulateError =
    | AlreadyTriangulated
    | NoEar
    | NonFannable
    | NotEnoughDarts(missing: nat)
    | TooManyDarts(excess: nat)
    | UndefinedFace(reason: string)

  /** Number of darts the triangulation of a face of `n` darts consumes. */
  function DartsNeeded(n: nat): int
  {
    (n - 3) * 2
  }

  /**
   * Check that a face with `nFace` darts can be triangulated using `nAlloc`
   * preallocated darts.  Signed differences are taken on unbounded integers,
   * so the cast of the counts to a signed word is not modelled.
   */
  function CheckRequirements(nFace: nat, nAlloc: nat): (r: Result<(), TriangulateError>)
    ensures nFace == 1 || nFace == 2 ==> r == Err(UndefinedFace("less than 3 vertices"))
    ensures nFace == 3 ==> r == Err(AlreadyTriangulated)
    ensures r.Ok? <==> nFace >= 4 && nAlloc == 2 * (nFace - 3)
    ensures nFace != 1 && nFace != 2 && nFace != 3 && nAlloc < DartsNeeded(nFace) ==>
      r == Err(NotEnoughDarts(DartsNeeded(nFace) - nAlloc))
    ensures nFace != 1 && nFace != 2 && nFace != 3 && nAlloc > DartsNeeded(nFace) ==>
      r == Err(TooManyDarts(nAlloc - DartsNeeded(nFace)))
  {
    if nFace == 1 || nFace == 2 then Err(UndefinedFace("less than 3 vertices"))
    else if nFace == 3 then Err(AlreadyTriangulated)
    else
      var diff := nAlloc as int - (nFace as int - 3) * 2;
      if diff < 0 then Err(NotEnoughDarts(-diff))
      else if diff == 0 then Ok(())
      else Err(TooManyDarts(diff))
  }

  /**
   * A face without darts is not caught by the vertex-count guard: it is
   * reported as having six darts too many on top of the allocated ones.
   */
  lemma EmptyFaceReportsTooManyDarts(nAlloc: nat)
    ensures CheckRequirements(0, nAlloc) == Err(TooManyDarts(nAlloc + 6))
  {
  }

  /**
   * The check as documented: every face of fewer than three vertices,
   * including the empty one, is undefined.  It differs from the check as
   * written on the empty face only.
   */
  function CheckRequirementsDocumented(nFace: nat, nAlloc: nat): (r: Result<(), TriangulateError>)
    ensures nFace < 3 ==> r == Err(UndefinedFace("less than 3 vertices"))
    ensures nFace > 0 ==> r == CheckRequirements(nFace, nAlloc)
  {
    if nFace < 3 then Err(UndefinedFace("less than 3 vertices"))
    else CheckRequirements(nFace, nAlloc)
  }

  /**
   * Under the documented check an error names the real cause: too many darts
   * is reported only for faces that have at least four darts.
   */
  lemma DocumentedTooManyDartsNeedsPolygon(nFace: nat, nAlloc: nat)
    ensures CheckRequirementsDocumented(nFace, nAlloc).Err? && CheckRequirementsDocumented(nFace, nAlloc).error.TooManyDarts? ==>
      nFace >= 4 && CheckRequirementsDocumented(nFace, nAlloc).error.excess == nAlloc - 2 * (nFace - 3)
  {
  }
}
