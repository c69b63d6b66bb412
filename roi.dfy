/** Reordering the document's region of interest into a polygon. */
module RegionOfInterest {
  import opened Wrappers
  import opened Annotation

  /** Corner `k` (1 to 4) of the ROI as an [x, y] point, numbered as in the annotation. */
  function Corner(roi: Roi, k: nat): (p: seq<int>)
    requires 1 <= k <= 4
    ensures |p| == 2
  {
    match k
    case 1 => [roi.x1, roi.y1]
    case 2 => [roi.x2, roi.y2]
    case 3 => [roi.x3, roi.y3]
    case 4 => [roi.x4, roi.y4]
  }

  /**
   * A present ROI becomes [top_left, top_right, bottom_right, bottom_left],
   * which are corners 1, 2, 3 and 4; a null or empty one becomes [].
   */
  function ReorderRoi(roi: Option<Roi>): (points: seq<seq<int>>)
    ensures roi.None? <==> points == []
    ensures roi.Some? ==> |points| == 4 && forall k :: 0 <= k < 4 ==> points[k] == Corner(roi.value, k + 1)
  {
    match roi
    case None => []
    case Some(r) =>
      var topLeft := [r.x1, r.y1];
      var bottomRight := [r.x3, r.y3];
      var bottomLeft := [r.x4, r.y4];
      var topRight := [r.x2, r.y2];
      [topLeft, topRight, bottomRight, bottomLeft]
  }

  /** Reads a polygon of four [x, y] points back into a ROI; [] means no ROI. */
  function PolygonToRoi(points: seq<seq<int>>): Option<Option<Roi>>
  {
    if points == [] then Some(None)
    else if |points| == 4 && forall k :: 0 <= k < 4 ==> |points[k]| == 2 then
      Some(Some(Roi(points[0][0], points[0][1], points[1][0], points[1][1],
                    points[2][0], points[2][1], points[3][0], points[3][1])))
    else None
  }

  /** The reordering loses nothing: every corner of the ROI can be read back. */
  lemma ReorderRoiRoundTrip(roi: Option<Roi>)
    ensures PolygonToRoi(ReorderRoi(roi)) == Some(roi)
  {
  }

  /** The example of a 10-by-10 ROI at the origin. */
  lemma ReorderSquareRoi()
    ensures ReorderRoi(Some(Roi(0, 0, 10, 0, 10, 10, 0, 10))) == [[0, 0], [10, 0], [10, 10], [0, 10]]
  {
  }
}
