/** The radius query of the k-d tree built every step
    (`KDTree(position).query_ball_point(centre, q)`), stated directly: the
    indices of all points within Euclidean distance q of the centre. */
module Neighbours {
  import opened Agent

  /** `pt` lies within Euclidean distance q of `centre`.  Compared on squares,
      which is exact over the reals; the quarantine sentinel is at infinite
      distance from everything. */
  predicate InBall(q: real, pt: Place, centre: Place)
  {
    && pt.At? && centre.At? && q >= 0.0
    && (pt.x - centre.x) * (pt.x - centre.x) + (pt.y - centre.y) * (pt.y - centre.y) <= q * q
  }

  /** Nearness is symmetric, and a point at a non-negative radius is its own neighbour. */
  lemma InBallSymmetric(q: real, a: Place, b: Place)
    ensures InBall(q, a, b) <==> InBall(q, b, a)
    ensures a.At? && q >= 0.0 ==> InBall(q, a, a)
  {
  }

  /** The indices of the points of the tree within distance q of `centre`, ascending. */
  function BallQuery(pts: seq<Place>, centre: Place, q: real): (r: seq<nat>)
    ensures forall x :: x in r ==> x < |pts| && InBall(q, pts[x], centre)
    ensures forall j :: 0 <= j < |pts| && InBall(q, pts[j], centre) ==> j in r
    ensures forall a, b :: 0 <= a < b < |r| ==> r[a] < r[b]
    decreases |pts|
  {
    if |pts| == 0 then []
    else
      var n := |pts| - 1;
      var nearer := BallQuery(pts[..n], centre, q);
      forall a | 0 <= a < |nearer| ensures nearer[a] < n {
        assert nearer[a] in nearer;
      }
      nearer + (if InBall(q, pts[n], centre) then [n] else [])
  }
}
