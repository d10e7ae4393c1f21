/**
 * Geometric anchors: the attributes that tie mesh vertices, edges and faces to
 * the node, curve, surface or body of the geometry they discretise.  Merging two
 * anchors keeps the one of lower dimension; two anchors of the same dimension
 * only merge when they name the same geometric entity.
 */
module Anchors {
  import opened Wrappers

  /** Geometric entity identifiers are 32-bit unsigned integers. */
  newtype u32 = x: int | 0 <= x < 0x1_0000_0000

  /** The error an attribute merge reports: the attribute kind and the reason. */
  datatype AttributeError = FailedMerge(attribute: string, reason: string)

  const SameDimDifferentIds: string := "anchors have the same dimension but different IDs"

  // --- vertex anchors

  datatype VertexAnchor = Node(id: u32) | Curve(id: u32) | Surface(id: u32) | Body(id: u32)

  /** Dimension of the geometric entity a vertex is attached to. */
  function VertexAnchorDim(a: VertexAnchor): (d: nat)
    ensures d <= 3
    ensures d == 0 <==> a.Node?
    ensures d == 3 <==> a.Body?
  {
    match a
    case Node(_) => 0
    case Curve(_) => 1
    case Surface(_) => 2
    case Body(_) => 3
  }

  /**
   * Merge two vertex anchors, trying Node, then Curve, then Surface, then Body:
   * the lower-dimensional anchor wins, equal dimensions need equal ids.
   */
  function MergeVertexAnchors(a1: VertexAnchor, a2: VertexAnchor): (r: Result<VertexAnchor, AttributeError>)
    ensures r.Ok? <==> (VertexAnchorDim(a1) != VertexAnchorDim(a2) || a1 == a2)
    ensures r.Ok? ==> r.value == (if VertexAnchorDim(a1) <= VertexAnchorDim(a2) then a1 else a2)
    ensures r.Err? ==> r.error == FailedMerge("VertexAnchor", SameDimDifferentIds)
  {
    match (a1, a2)
    case (Node(id1), Node(id2)) =>
      if id1 == id2 then Ok(VertexAnchor.Node(id1)) else Err(FailedMerge("VertexAnchor", SameDimDifferentIds))
    case (Node(id), _) => Ok(VertexAnchor.Node(id))
    case (_, Node(id)) => Ok(VertexAnchor.Node(id))
    case (Curve(id1), Curve(id2)) =>
      if id1 == id2 then Ok(VertexAnchor.Curve(id1)) else Err(FailedMerge("VertexAnchor", SameDimDifferentIds))
    case (Curve(id), _) => Ok(VertexAnchor.Curve(id))
    case (_, Curve(id)) => Ok(VertexAnchor.Curve(id))
    case (Surface(id1), Surface(id2)) =>
      if id1 == id2 then Ok(VertexAnchor.Surface(id1)) else Err(FailedMerge("VertexAnchor", SameDimDifferentIds))
    case (Surface(id), _) => Ok(VertexAnchor.Surface(id))
    case (_, Surface(id)) => Ok(VertexAnchor.Surface(id))
    case (Body(id1), Body(id2)) =>
      if id1 == id2 then Ok(VertexAnchor.Body(id1)) else Err(FailedMerge("VertexAnchor", SameDimDifferentIds))
  }

  /** Merging vertex anchors does not depend on the order of its arguments. */
  lemma MergeVertexAnchorsSymmetric(a1: VertexAnchor, a2: VertexAnchor)
    ensures MergeVertexAnchors(a1, a2) == MergeVertexAnchors(a2, a1)
  {
  }

  /** Splitting a vertex anchor gives it to both halves. */
  function SplitVertexAnchor(a: VertexAnchor): (r: Result<(VertexAnchor, VertexAnchor), AttributeError>)
    ensures r.Ok? && r.value.0 == a && r.value.1 == a
  {
    Ok((a, a))
  }

  /** Merging a vertex anchor with a missing one keeps it. */
  function MergeIncompleteVertexAnchor(a: VertexAnchor): (r: Result<VertexAnchor, AttributeError>)
    ensures r == Ok(a)
  {
    Ok(a)
  }

  /** An edge anchor seen as a vertex anchor: same entity, same dimension. */
  function VertexAnchorFromEdge(e: EdgeAnchor): (v: VertexAnchor)
    ensures v.id == e.id && VertexAnchorDim(v) == EdgeAnchorDim(e)
  {
    match e
    case Curve(i) => VertexAnchor.Curve(i)
    case Surface(i) => VertexAnchor.Surface(i)
    case Body(i) => VertexAnchor.Body(i)
  }

  /** A face anchor seen as a vertex anchor: same entity, same dimension. */
  function VertexAnchorFromFace(f: FaceAnchor): (v: VertexAnchor)
    ensures v.id == f.id && VertexAnchorDim(v) == FaceAnchorDim(f)
  {
    match f
    case Surface(i) => VertexAnchor.Surface(i)
    case Body(i) => VertexAnchor.Body(i)
  }

  // --- edge anchors
  //
  // The source implements the same attribute interface once per anchor
  // type; the edge and face versions of split and merge_incomplete below
  // repeat the vertex ones with their own types, as it does.

  datatype EdgeAnchor = Curve(id: u32) | Surface(id: u32) | Body(id: u32)

  /** Dimension of the geometric entity an edge is attached to. */
  function EdgeAnchorDim(a: EdgeAnchor): (d: nat)
    ensures 1 <= d <= 3
    ensures d == 1 <==> a.Curve?
    ensures d == 3 <==> a.Body?
  {
    match a
    case Curve(_) => 1
    case Surface(_) => 2
    case Body(_) => 3
  }

  /** Merge two edge anchors, trying Curve, then Surface, then Body. */
  function MergeEdgeAnchors(a1: EdgeAnchor, a2: EdgeAnchor): (r: Result<EdgeAnchor, AttributeError>)
    ensures r.Ok? <==> (EdgeAnchorDim(a1) != EdgeAnchorDim(a2) || a1 == a2)
    ensures r.Ok? ==> r.value == (if EdgeAnchorDim(a1) <= EdgeAnchorDim(a2) then a1 else a2)
    ensures r.Err? ==> r.error == FailedMerge("EdgeAnchor", SameDimDifferentIds)
  {
    match (a1, a2)
    case (Curve(id1), Curve(id2)) =>
      if id1 == id2 then Ok(EdgeAnchor.Curve(id1)) else Err(FailedMerge("EdgeAnchor", SameDimDifferentIds))
    case (Curve(id), _) => Ok(EdgeAnchor.Curve(id))
    case (_, Curve(id)) => Ok(EdgeAnchor.Curve(id))
    case (Surface(id1), Surface(id2)) =>
      if id1 == id2 then Ok(EdgeAnchor.Surface(id1)) else Err(FailedMerge("EdgeAnchor", SameDimDifferentIds))
    case (Surface(id), _) => Ok(EdgeAnchor.Surface(id))
    case (_, Surface(id)) => Ok(EdgeAnchor.Surface(id))
    case (Body(id1), Body(id2)) =>
      if id1 == id2 then Ok(EdgeAnchor.Body(id1)) else Err(FailedMerge("EdgeAnchor", SameDimDifferentIds))
  }

  /** Merging edge anchors does not depend on the order of its arguments. */
  lemma MergeEdgeAnchorsSymmetric(a1: EdgeAnchor, a2: EdgeAnchor)
    ensures MergeEdgeAnchors(a1, a2) == MergeEdgeAnchors(a2, a1)
  {
  }

  /** Splitting an edge anchor gives it to both halves. */
  function SplitEdgeAnchor(a: EdgeAnchor): (r: Result<(EdgeAnchor, EdgeAnchor), AttributeError>)
    ensures r.Ok? && r.value.0 == a && r.value.1 == a
  {
    Ok((a, a))
  }

  /** Merging an edge anchor with a missing one keeps it. */
  function MergeIncompleteEdgeAnchor(a: EdgeAnchor): (r: Result<EdgeAnchor, AttributeError>)
    ensures r == Ok(a)
  {
    Ok(a)
  }

  /** A face anchor seen as an edge anchor: same entity, same dimension. */
  function EdgeAnchorFromFace(f: FaceAnchor): (e: EdgeAnchor)
    ensures e.id == f.id && EdgeAnchorDim(e) == FaceAnchorDim(f)
  {
    match f
    case Surface(i) => EdgeAnchor.Surface(i)
    case Body(i) => EdgeAnchor.Body(i)
  }

  // --- face anchors

  datatype FaceAnchor = Surface(id: u32) | Body(id: u32)

  /** Dimension of the geometric entity a face is attached to. */
  function FaceAnchorDim(a: FaceAnchor): (d: nat)
    ensures 2 <= d <= 3
    ensures d == 2 <==> a.Surface?
  {
    match a
    case Surface(_) => 2
    case Body(_) => 3
  }

  /** Merge two face anchors, trying Surface, then Body. */
  function MergeFaceAnchors(a1: FaceAnchor, a2: FaceAnchor): (r: Result<FaceAnchor, AttributeError>)
    ensures r.Ok? <==> (FaceAnchorDim(a1) != FaceAnchorDim(a2) || a1 == a2)
    ensures r.Ok? ==> r.value == (if FaceAnchorDim(a1) <= FaceAnchorDim(a2) then a1 else a2)
    ensures r.Err? ==> r.error == FailedMerge("FaceAnchor", SameDimDifferentIds)
  {
    match (a1, a2)
    case (Surface(id1), Surface(id2)) =>
      if id1 == id2 then Ok(FaceAnchor.Surface(id1)) else Err(FailedMerge("FaceAnchor", SameDimDifferentIds))
    case (Surface(id), _) => Ok(FaceAnchor.Surface(id))
    case (_, Surface(id)) => Ok(FaceAnchor.Surface(id))
    case (Body(id1), Body(id2)) =>
      if id1 == id2 then Ok(FaceAnchor.Body(id1)) else Err(FailedMerge("FaceAnchor", SameDimDifferentIds))
  }

  /** Merging face anchors does not depend on the order of its arguments. */
  lemma MergeFaceAnchorsSymmetric(a1: FaceAnchor, a2: FaceAnchor)
    ensures MergeFaceAnchors(a1, a2) == MergeFaceAnchors(a2, a1)
  {
  }

  /** Splitting a face anchor gives it to both halves. */
  function SplitFaceAnchor(a: FaceAnchor): (r: Result<(FaceAnchor, FaceAnchor), AttributeError>)
    ensures r.Ok? && r.value.0 == a && r.value.1 == a
  {
    Ok((a, a))
  }

  /** Merging a face anchor with a missing one keeps it. */
  function MergeIncompleteFaceAnchor(a: FaceAnchor): (r: Result<FaceAnchor, AttributeError>)
    ensures r == Ok(a)
  {
    Ok(a)
  }

  /**
   * Converting before merging commutes with merging: a face anchor merge seen
   * on vertices gives the same outcome as the vertex merge of the converted anchors.
   */
  lemma MergeCommutesWithFaceToVertex(f1: FaceAnchor, f2: FaceAnchor)
    ensures MergeFaceAnchors(f1, f2).Ok? == MergeVertexAnchors(VertexAnchorFromFace(f1), VertexAnchorFromFace(f2)).Ok?
    ensures MergeFaceAnchors(f1, f2).Ok? ==>
      VertexAnchorFromFace(MergeFaceAnchors(f1, f2).value)
        == MergeVertexAnchors(VertexAnchorFromFace(f1), VertexAnchorFromFace(f2)).value
  {
  }
}
