/** One marching-squares cell: the 4-bit classification key of its
    corners, the two 16-entry lookup tables (contour segments and the
    "inside" polygon) written in unit-square ratios, the two
    interpolators the tables are evaluated with, and the mapping of
    ratios to world coordinates. */
module MarchingCell {
  import opened Common
  import opened MetaballPoint

  /** The corners of a cell in the order of its `values` getter. */
  datatype Corner = TL | TR | BR | BL

  /** The four corner values of a cell, in `values` order. */
  datatype Corners = Corners(tl: real, tr: real, br: real, bl: real) {
    function At(c: Corner): real {
      match c
      case TL => tl
      case TR => tr
      case BR => br
      case BL => bl
    }

    /** The `values` tuple as a sequence, in iteration order. */
    function AsSeq(): (s: seq<real>)
      ensures |s| == 4
      ensures s[0] == At(TL) && s[1] == At(TR) && s[2] == At(BR) && s[3] == At(BL)
    {
      [tl, tr, br, bl]
    }
  }

  // ---------------------------------------------------------------------
  // The key

  /** Whether key k has corner c's binary digit set: TL is the most
      significant digit (8), then TR (4), BR (2) and BL (1). */
  predicate KeyBit(k: nat, c: Corner) {
    match c
    case TL => (k / 8) % 2 == 1
    case TR => (k / 4) % 2 == 1
    case BR => (k / 2) % 2 == 1
    case BL => k % 2 == 1
  }

  function Bit(b: bool): nat {
    if b then 1 else 0
  }

  /** The key of a cell: one binary digit per corner, TL first, set when
      the corner's value is strictly above the threshold (the threshold
      of the top-left point, in the source). */
  function KeyOf(vs: Corners, th: real): (k: nat)
    ensures k < 16
    ensures forall c :: KeyBit(k, c) <==> vs.At(c) > th
  {
    8 * Bit(vs.tl > th) + 4 * Bit(vs.tr > th) + 2 * Bit(vs.br > th) + Bit(vs.bl > th)
  }

  /** A key below 16 is fixed by its four digits. */
  lemma {:induction false} KeyFromBits(k: nat, k': nat)
    requires k < 16 && k' < 16
    requires forall c :: KeyBit(k, c) <==> KeyBit(k', c)
    ensures k == k'
  {
    assert KeyBit(k, TL) == KeyBit(k', TL) && KeyBit(k, TR) == KeyBit(k', TR);
    assert KeyBit(k, BR) == KeyBit(k', BR) && KeyBit(k, BL) == KeyBit(k', BL);
  }

  /** The key depends on nothing but the classification of the corners. */
  lemma KeyDependsOnClassificationOnly(vs: Corners, th: real, vs': Corners, th': real)
    requires forall c :: vs.At(c) > th <==> vs'.At(c) > th'
    ensures KeyOf(vs, th) == KeyOf(vs', th')
  {
    KeyFromBits(KeyOf(vs, th), KeyOf(vs', th'));
  }

  /** Negating every corner's classification turns key k into 15 - k. */
  lemma ComplementKey(vs: Corners, th: real, vs': Corners, th': real)
    requires forall c :: vs'.At(c) > th' <==> !(vs.At(c) > th)
    ensures KeyOf(vs', th') == 15 - KeyOf(vs, th)
  {
    var k, k' := KeyOf(vs, th), KeyOf(vs', th');
    assert forall c :: KeyBit(15 - k, c) <==> !KeyBit(k, c) by {
      assert 0 <= k < 16;
    }
    KeyFromBits(k', 15 - k);
  }

  /** The digit the key getter appends for one value. */
  function Digit(v: real, th: real): char {
    if v > th then '1' else '0'
  }

  predicate IsBinary(s: string) {
    forall i :: 0 <= i < |s| ==> s[i] == '0' || s[i] == '1'
  }

  function DigitValue(d: char): nat {
    if d == '1' then 1 else 0
  }

  /** Number.parseInt(s, 2) on a string of binary digits: n digits parse
      to a number below 2^n. */
  function ParseBinary(s: string): (r: nat)
    requires IsBinary(s)
    ensures r < Pow(2, |s|)
  {
    if s == [] then 0 else 2 * ParseBinary(s[..|s| - 1]) + DigitValue(s[|s| - 1])
  }

  lemma ParseFourDigits(s: string)
    requires |s| == 4 && IsBinary(s)
    ensures ParseBinary(s) == 8 * DigitValue(s[0]) + 4 * DigitValue(s[1]) + 2 * DigitValue(s[2]) + DigitValue(s[3])
  {
    assert s[..3][..2] == s[..2] && s[..2][..1] == s[..1] && s[..1][..0] == [];
    assert ParseBinary(s[..1]) == DigitValue(s[0]);
    assert ParseBinary(s[..2]) == 2 * DigitValue(s[0]) + DigitValue(s[1]);
    assert ParseBinary(s[..3]) == 4 * DigitValue(s[0]) + 2 * DigitValue(s[1]) + DigitValue(s[2]);
  }

  /** The key getter as the source runs it: one digit per corner value
      appended to a string, which is then parsed in base 2. */
  method ComputeKey(vs: Corners, th: real) returns (key: nat)
    ensures key == KeyOf(vs, th)
  {
    var values := vs.AsSeq();
    var binary := "";
    for i := 0 to |values|
      invariant |binary| == i
      invariant forall m :: 0 <= m < i ==> binary[m] == Digit(values[m], th)
    {
      binary := binary + [Digit(values[i], th)];
    }
    ParseFourDigits(binary);
    key := ParseBinary(binary);
  }

  // ---------------------------------------------------------------------
  // Edges and interpolation

  /** The four edges, each directed the way the tables call the
      interpolator on it: interpolator(values[From], values[To]). */
  datatype Edge = Top | Right | Bottom | Left {
    function From(): Corner {
      match this
      case Top => TL
      case Right => TR
      case Bottom => BL
      case Left => TL
    }
    function To(): Corner {
      match this
      case Top => TR
      case Right => BR
      case Bottom => BR
      case Left => BL
    }
  }

  /** Whether the contour crosses edge e of a cell with key k: its two
      corners classify differently. */
  predicate Crossed(k: nat, e: Edge) {
    KeyBit(k, e.From()) != KeyBit(k, e.To())
  }

  /** The number of edges a key's contour crosses. */
  function CrossedCount(k: nat): nat {
    Bit(Crossed(k, Top)) + Bit(Crossed(k, Right)) + Bit(Crossed(k, Bottom)) + Bit(Crossed(k, Left))
  }

  /** The two interpolators the Cell getters pass to the tables: the
      "regular" one returns 0.5, the interpolated one
      (threshold - valueA) / (valueB - valueA). */
  datatype Interpolator = Midpoint | Linear

  /** The crossing ratio along an edge from value va to value vb. The
      divisor must not be zero; the tables only ever interpolate along
      crossed edges, where it is not (see CrossingRatioInUnit). */
  function Interpolate(ip: Interpolator, th: real, va: real, vb: real): (t: real)
    requires ip.Linear? ==> va != vb
    ensures ip.Midpoint? ==> t == 0.5
    ensures ip.Linear? ==> va + t * (vb - va) == th
  {
    match ip
    case Midpoint => 0.5
    case Linear => (th - va) / (vb - va)
  }

  /** On an edge whose corners classify differently the divisor is not
      zero and the ratio lies in [0, 1]: the threshold is reached between
      the two corners, at A when va == th and never at a B equal to th
      unless A is above it. */
  lemma CrossingRatioInUnit(th: real, va: real, vb: real)
    requires (va > th) != (vb > th)
    ensures va != vb
    ensures 0.0 <= Interpolate(Linear, th, va, vb) <= 1.0
  {
    if va > th {
      assert (th - va) / (vb - va) == (va - th) / (va - vb);
      FractionInUnit(va - th, va - vb);
    } else {
      FractionInUnit(th - va, vb - va);
    }
  }

  // ---------------------------------------------------------------------
  // The tables, in unit-square ratios

  /** One coordinate of a table vertex: a constant, or the result of
      interpolator(values[a], values[b]). */
  datatype Ratio = Fixed(r: real) | Cross(a: Corner, b: Corner)

  /** A table vertex: x runs from the left (0) to the right (1) edge,
      y from the top (0) to the bottom (1) edge. */
  datatype RatioVec = RatioVec(x: Ratio, y: Ratio)

  type RatioSegment = (RatioVec, RatioVec)

  const Zero: Ratio := Fixed(0.0)
  const One: Ratio := Fixed(1.0)

  /** The unit-square position of a corner. */
  function UnitCorner(c: Corner): RatioVec {
    match c
    case TL => RatioVec(Zero, Zero)
    case TR => RatioVec(One, Zero)
    case BR => RatioVec(One, One)
    case BL => RatioVec(Zero, One)
  }

  /** The vertex the tables use where the contour crosses edge e. */
  function CrossingVertex(e: Edge): RatioVec {
    match e
    case Top => RatioVec(Cross(TL, TR), Zero)
    case Right => RatioVec(One, Cross(TR, BR))
    case Bottom => RatioVec(Cross(BL, BR), One)
    case Left => RatioVec(Zero, Cross(TL, BL))
  }

  /** getInterpolatedAreaVertexRatios: the polygon covering the part of
      the cell above the threshold, clockwise from the top-left. */
  function AreaTable(key: nat): (polygon: seq<RatioVec>)
    ensures |polygon| <= 6
    ensures key >= 16 ==> polygon == []
  {
    match key
    case 0 => []
    case 1 => [RatioVec(Cross(BL, BR), One), RatioVec(Zero, One), RatioVec(Zero, Cross(TL, BL))]
    case 2 => [RatioVec(One, Cross(TR, BR)), RatioVec(One, One), RatioVec(Cross(BL, BR), One)]
    case 3 => [RatioVec(One, Cross(TR, BR)), RatioVec(One, One), RatioVec(Zero, One), RatioVec(Zero, Cross(TL, BL))]
    case 4 => [RatioVec(Cross(TL, TR), Zero), RatioVec(One, Zero), RatioVec(One, Cross(TR, BR))]
    case 5 =>
      [RatioVec(Cross(TL, TR), Zero), RatioVec(One, Zero), RatioVec(One, Cross(TR, BR)),
       RatioVec(Cross(BL, BR), One), RatioVec(Zero, One), RatioVec(Zero, Cross(TL, BL))]
    case 6 => [RatioVec(Cross(TL, TR), Zero), RatioVec(One, Zero), RatioVec(One, One), RatioVec(Cross(BL, BR), One)]
    case 7 =>
      [RatioVec(Cross(TL, TR), Zero), RatioVec(One, Zero), RatioVec(One, One),
       RatioVec(Zero, One), RatioVec(Zero, Cross(TL, BL))]
    case 8 => [RatioVec(Zero, Zero), RatioVec(Cross(TL, TR), Zero), RatioVec(Zero, Cross(TL, BL))]
    case 9 => [RatioVec(Zero, Zero), RatioVec(Cross(TL, TR), Zero), RatioVec(Cross(BL, BR), One), RatioVec(Zero, One)]
    case 10 =>
      [RatioVec(Zero, Zero), RatioVec(Cross(TL, TR), Zero), RatioVec(One, Cross(TR, BR)),
       RatioVec(One, One), RatioVec(Cross(BL, BR), One), RatioVec(Zero, Cross(TL, BL))]
    case 11 =>
      [RatioVec(Zero, Zero), RatioVec(Cross(TL, TR), Zero), RatioVec(One, Cross(TR, BR)),
       RatioVec(One, One), RatioVec(Zero, One)]
    case 12 => [RatioVec(Zero, Zero), RatioVec(One, Zero), RatioVec(One, Cross(TR, BR)), RatioVec(Zero, Cross(TL, BL))]
    case 13 =>
      [RatioVec(Zero, Zero), RatioVec(One, Zero), RatioVec(One, Cross(TR, BR)),
       RatioVec(Cross(BL, BR), One), RatioVec(Zero, One)]
    case 14 =>
      [RatioVec(Zero, Zero), RatioVec(One, Zero), RatioVec(One, One),
       RatioVec(Cross(BL, BR), One), RatioVec(Zero, Cross(TL, BL))]
    case 15 => [RatioVec(Zero, Zero), RatioVec(One, Zero), RatioVec(One, One), RatioVec(Zero, One)]
    case _ => []
  }

  /** getInterpolatedLineRatios: the contour segments of a cell; key k
      and 15 - k share an entry except for the saddles 5 and 10. */
  function LineTable(key: nat): (segments: seq<RatioSegment>)
    ensures |segments| <= 2
    ensures key >= 16 ==> segments == []
  {
    match key
    case 0 | 15 => []
    case 1 | 14 => [(RatioVec(Zero, Cross(TL, BL)), RatioVec(Cross(BL, BR), One))]
    case 2 | 13 => [(RatioVec(Cross(BL, BR), One), RatioVec(One, Cross(TR, BR)))]
    case 3 | 12 => [(RatioVec(Zero, Cross(TL, BL)), RatioVec(One, Cross(TR, BR)))]
    case 4 | 11 => [(RatioVec(Cross(TL, TR), Zero), RatioVec(One, Cross(TR, BR)))]
    case 5 =>
      [(RatioVec(Zero, Cross(TL, BL)), RatioVec(Cross(TL, TR), Zero)),
       (RatioVec(Cross(BL, BR), One), RatioVec(One, Cross(TR, BR)))]
    case 6 | 9 => [(RatioVec(Cross(TL, TR), Zero), RatioVec(Cross(BL, BR), One))]
    case 7 | 8 => [(RatioVec(Zero, Cross(TL, BL)), RatioVec(Cross(TL, TR), Zero))]
    case 10 =>
      [(RatioVec(Zero, Cross(TL, BL)), RatioVec(Cross(BL, BR), One)),
       (RatioVec(Cross(TL, TR), Zero), RatioVec(One, Cross(TR, BR)))]
    case _ => []
  }

  // ---------------------------------------------------------------------
  // What the tables say

  /** The unit-square corners. */
  predicate IsUnitCorner(v: RatioVec) {
    v == UnitCorner(TL) || v == UnitCorner(TR) || v == UnitCorner(BR) || v == UnitCorner(BL)
  }

  /** v is where the contour of key k crosses one of the crossed edges. */
  predicate IsCrossingOf(k: nat, v: RatioVec) {
    || (v == CrossingVertex(Top) && Crossed(k, Top))
    || (v == CrossingVertex(Right) && Crossed(k, Right))
    || (v == CrossingVertex(Bottom) && Crossed(k, Bottom))
    || (v == CrossingVertex(Left) && Crossed(k, Left))
  }

  /** The number of corners of key k above the threshold. */
  function InsideCount(k: nat): nat {
    Bit(KeyBit(k, TL)) + Bit(KeyBit(k, TR)) + Bit(KeyBit(k, BR)) + Bit(KeyBit(k, BL))
  }

  /** All endpoints of a list of segments, in order. */
  function Endpoints(segments: seq<RatioSegment>): (vs: seq<RatioVec>)
    ensures |vs| == 2 * |segments|
    ensures forall i :: 0 <= i < |segments| ==> vs[2 * i] == segments[i].0 && vs[2 * i + 1] == segments[i].1
  {
    if segments == [] then [] else [segments[0].0, segments[0].1] + Endpoints(segments[1..])
  }

  /** Every polygon vertex is a unit-square corner or the crossing on a
      crossed edge, so every interpolator call in the polygon table is on
      an edge whose corners classify differently. */
  lemma AreaTableVertices(k: nat)
    requires k < 16
    ensures forall i :: 0 <= i < |AreaTable(k)| ==> IsUnitCorner(AreaTable(k)[i]) || IsCrossingOf(k, AreaTable(k)[i])
  {
  }

  /** The unit-square corners in a key's polygon are exactly the corners
      above the threshold. */
  lemma AreaTableCorners(k: nat, c: Corner)
    requires k < 16
    ensures UnitCorner(c) in AreaTable(k) <==> KeyBit(k, c)
  {
  }

  /** The polygon passes through the crossing of every crossed edge and
      of no other edge. */
  lemma AreaTableCrossings(k: nat, e: Edge)
    requires k < 16
    ensures CrossingVertex(e) in AreaTable(k) <==> Crossed(k, e)
  {
  }

  /** Vertex counts: the inside corners plus one vertex per crossed edge. */
  lemma {:induction false} AreaTableSizes(k: nat)
    requires k < 16
    ensures |AreaTable(k)| == InsideCount(k) + CrossedCount(k)
  {
    AreaTableSizesByKey(k);
    CountsByKey(k);
  }

  /** Vertex counts by key: 3 when one corner is inside or outside alone,
      4 for two adjacent inside corners and for the full cell, 5 when one
      corner is outside alone, 6 for the saddles. */
  function SizeByKey(k: nat): nat {
    if k == 0 then 0
    else if k in {1, 2, 4, 8} then 3
    else if k in {3, 6, 9, 12, 15} then 4
    else if k in {7, 11, 13, 14} then 5
    else 6
  }

  lemma AreaTableSizesByKey(k: nat)
    requires k < 16
    ensures |AreaTable(k)| == SizeByKey(k)
  {
  }

  /** Inside corners plus crossed edges, key by key. */
  lemma {:induction false} CountsByKey(k: nat)
    requires k < 16
    ensures InsideCount(k) + CrossedCount(k) == SizeByKey(k)
  {
    if k < 8 {
      CountsBelow8(k);
    } else {
      CountsFrom8(k);
    }
  }

  lemma {:induction false} CountsBelow8(k: nat)
    requires k < 8
    ensures InsideCount(k) + CrossedCount(k) == SizeByKey(k)
  {
    match k
    case 0 =>
    case 1 =>
    case 2 =>
    case 3 =>
    case 4 =>
    case 5 =>
    case 6 =>
    case _ => assert k == 7;
  }

  lemma {:induction false} CountsFrom8(k: nat)
    requires 8 <= k < 16
    ensures InsideCount(k) + CrossedCount(k) == SizeByKey(k)
  {
    match k
    case 8 =>
    case 9 =>
    case 10 =>
    case 11 =>
    case 12 =>
    case 13 =>
    case 14 =>
    case _ => assert k == 15;
  }

  /** No polygon lists a vertex twice. */
  lemma AreaTableDistinct(k: nat)
    requires k < 16
    ensures forall i, j :: 0 <= i < j < |AreaTable(k)| ==> AreaTable(k)[i] != AreaTable(k)[j]
  {
  }

  /** The all-inside and all-outside polygons. */
  lemma AreaTableExtremes()
    ensures AreaTable(0) == []
    ensures AreaTable(15) == [UnitCorner(TL), UnitCorner(TR), UnitCorner(BR), UnitCorner(BL)]
  {
  }

  /** Every contour endpoint is the crossing on a crossed edge, so every
      interpolator call in the contour table is on an edge whose corners
      classify differently. */
  lemma LineTableEndpoints(k: nat)
    requires k < 16
    ensures forall i :: 0 <= i < |LineTable(k)| ==> IsCrossingOf(k, LineTable(k)[i].0) && IsCrossingOf(k, LineTable(k)[i].1)
  {
  }

  /** The contour meets the crossed edges and no other. */
  lemma LineTableCrossings(k: nat, e: Edge)
    requires k < 16
    ensures CrossingVertex(e) in Endpoints(LineTable(k)) <==> Crossed(k, e)
  {
  }

  /** The contour meets every crossed edge exactly once: there are as many
      endpoints as crossed edges, and no two endpoints coincide. */
  lemma LineTableEndpointCount(k: nat)
    requires k < 16
    ensures 2 * |LineTable(k)| == CrossedCount(k)
  {
  }

  lemma LineTableEndpointsDistinct(k: nat)
    requires k < 16
    ensures forall i, j :: 0 <= i < j < |Endpoints(LineTable(k))| ==> Endpoints(LineTable(k))[i] != Endpoints(LineTable(k))[j]
  {
  }

  /** No segment for keys 0 and 15, two for the saddles 5 and 10, one for
      every other key. */
  lemma LineTableSizes(k: nat)
    requires k < 16
    ensures |LineTable(k)| == (if k == 0 || k == 15 then 0 else if k == 5 || k == 10 then 2 else 1)
  {
  }

  /** Keys k and 15 - k share their segments, except the saddle pair. */
  lemma LineTableSymmetry(k: nat)
    requires k < 16
    ensures k != 5 && k != 10 ==> LineTable(k) == LineTable(15 - k)
    ensures LineTable(5) != LineTable(10)
  {
  }

  /** Every contour endpoint is also a vertex of the polygon: the contour
      is the part of the polygon's boundary inside the cell. */
  lemma ContourOnPolygon(k: nat, i: nat)
    requires k < 16 && i < |LineTable(k)|
    ensures LineTable(k)[i].0 in AreaTable(k) && LineTable(k)[i].1 in AreaTable(k)
  {
    LineTableEndpoints(k);
    var s := LineTable(k)[i];
    forall e | s.0 == CrossingVertex(e) || s.1 == CrossingVertex(e)
      ensures CrossingVertex(e) in AreaTable(k)
    {
      AreaTableCrossings(k, e);
    }
  }

  // ---------------------------------------------------------------------
  // Evaluating the tables

  /** Every crossing in r is on an edge whose corners classify
      differently, so the interpolator can be called on it. */
  predicate Resolvable(r: Ratio, vs: Corners, th: real) {
    r.Cross? ==> (vs.At(r.a) > th) != (vs.At(r.b) > th)
  }

  /** The value of one table coordinate under an interpolator. */
  function EvalRatio(r: Ratio, vs: Corners, th: real, ip: Interpolator): real
    requires Resolvable(r, vs, th)
  {
    match r
    case Fixed(v) => v
    case Cross(a, b) => Interpolate(ip, th, vs.At(a), vs.At(b))
  }

  function EvalVec(v: RatioVec, vs: Corners, th: real, ip: Interpolator): Vec
    requires Resolvable(v.x, vs, th) && Resolvable(v.y, vs, th)
  {
    Vec(EvalRatio(v.x, vs, th, ip), EvalRatio(v.y, vs, th, ip))
  }

  predicate InUnitSquare(p: Vec) {
    0.0 <= p.x <= 1.0 && 0.0 <= p.y <= 1.0
  }

  /** A corner or an edge midpoint of the unit square: the only points
      the regular interpolator can produce. */
  predicate OnHalfGrid(p: Vec) {
    && p.x in {0.0, 0.5, 1.0} && p.y in {0.0, 0.5, 1.0}
    && (p.x in {0.0, 1.0} || p.y in {0.0, 1.0})
  }

  /** The midpoint of one of the unit square's edges. */
  predicate EdgeMidpoint(p: Vec) {
    || (p.x == 0.5 && p.y in {0.0, 1.0})
    || (p.y == 0.5 && p.x in {0.0, 1.0})
  }

  /** The unit-square position of a corner, as numbers. */
  function CornerPoint(c: Corner): Vec {
    match c
    case TL => Vec(0.0, 0.0)
    case TR => Vec(1.0, 0.0)
    case BR => Vec(1.0, 1.0)
    case BL => Vec(0.0, 1.0)
  }

  /** A corner entry of the tables evaluates to that corner's position,
      whatever the interpolator. */
  lemma UnitCornerPoint(c: Corner, vs: Corners, th: real, ip: Interpolator)
    ensures Resolvable(UnitCorner(c).x, vs, th) && Resolvable(UnitCorner(c).y, vs, th)
    ensures EvalVec(UnitCorner(c), vs, th, ip) == CornerPoint(c)
  {
  }

  /** A crossing vertex of the tables lies on its edge at ratio t from the
      edge's first corner, t in [0, 1]; in the interpolated mode the
      values interpolated linearly along the edge reach the threshold
      exactly there. */
  lemma {:induction false} CrossingOnEdge(e: Edge, vs: Corners, th: real, ip: Interpolator)
    requires Crossed(KeyOf(vs, th), e)
    ensures Resolvable(CrossingVertex(e).x, vs, th) && Resolvable(CrossingVertex(e).y, vs, th)
    ensures var t := Interpolate(ip, th, vs.At(e.From()), vs.At(e.To()));
      && 0.0 <= t <= 1.0
      && EvalVec(CrossingVertex(e), vs, th, ip)
         == Vec(Lerp(CornerPoint(e.From()).x, CornerPoint(e.To()).x, t), Lerp(CornerPoint(e.From()).y, CornerPoint(e.To()).y, t))
      && (ip.Linear? ==> Lerp(vs.At(e.From()), vs.At(e.To()), t) == th)
  {
    CrossingRatioInUnit(th, vs.At(e.From()), vs.At(e.To()));
  }

  /** Evaluating a vertex the tables may hold for key KeyOf(vs, th) is
      defined, stays in the unit square, and under the regular
      interpolator lands on a corner or an edge midpoint. */
  lemma EvalTableVertex(v: RatioVec, vs: Corners, th: real, ip: Interpolator)
    requires IsUnitCorner(v) || IsCrossingOf(KeyOf(vs, th), v)
    ensures Resolvable(v.x, vs, th) && Resolvable(v.y, vs, th)
    ensures InUnitSquare(EvalVec(v, vs, th, ip))
    ensures ip.Midpoint? ==> OnHalfGrid(EvalVec(v, vs, th, ip))
    ensures ip.Midpoint? && IsCrossingOf(KeyOf(vs, th), v) ==> EdgeMidpoint(EvalVec(v, vs, th, ip))
  {
    if !IsUnitCorner(v) {
      var k := KeyOf(vs, th);
      var e :| v == CrossingVertex(e) && Crossed(k, e);
      CrossingOnEdge(e, vs, th, ip);
    }
  }

  /** getInterpolatedAreaVertexRatios: the polygon table of the cell's
      key, evaluated with an interpolator. */
  function AreaVertexRatios(vs: Corners, th: real, ip: Interpolator): (ps: seq<Vec>)
    ensures |ps| == |AreaTable(KeyOf(vs, th))|
    ensures forall i :: 0 <= i < |ps| ==> InUnitSquare(ps[i])
    ensures ip.Midpoint? ==> forall i :: 0 <= i < |ps| ==> OnHalfGrid(ps[i])
  {
    var table := AreaTable(KeyOf(vs, th));
    AreaTableVertices(KeyOf(vs, th));
    EvalTableVertices(table, vs, th, ip);
    seq(|table|, i requires 0 <= i < |table| => EvalVec(table[i], vs, th, ip))
  }

  /** getInterpolatedLineRatios: the contour table of the cell's key,
      evaluated with an interpolator. */
  function LineRatios(vs: Corners, th: real, ip: Interpolator): (ls: seq<(Vec, Vec)>)
    ensures |ls| == |LineTable(KeyOf(vs, th))|
    ensures forall i :: 0 <= i < |ls| ==> InUnitSquare(ls[i].0) && InUnitSquare(ls[i].1)
    ensures ip.Midpoint? ==> forall i :: 0 <= i < |ls| ==> EdgeMidpoint(ls[i].0) && EdgeMidpoint(ls[i].1)
  {
    var table := LineTable(KeyOf(vs, th));
    LineTableEndpoints(KeyOf(vs, th));
    EvalTableSegments(table, vs, th, ip);
    seq(|table|, i requires 0 <= i < |table| =>
      (EvalVec(table[i].0, vs, th, ip), EvalVec(table[i].1, vs, th, ip)))
  }

  lemma EvalTableVertices(table: seq<RatioVec>, vs: Corners, th: real, ip: Interpolator)
    requires forall i :: 0 <= i < |table| ==> IsUnitCorner(table[i]) || IsCrossingOf(KeyOf(vs, th), table[i])
    ensures forall i :: 0 <= i < |table| ==> Resolvable(table[i].x, vs, th) && Resolvable(table[i].y, vs, th)
    ensures forall i :: 0 <= i < |table| ==> InUnitSquare(EvalVec(table[i], vs, th, ip))
    ensures ip.Midpoint? ==> forall i :: 0 <= i < |table| ==> OnHalfGrid(EvalVec(table[i], vs, th, ip))
  {
    forall i | 0 <= i < |table|
      ensures Resolvable(table[i].x, vs, th) && Resolvable(table[i].y, vs, th)
      ensures InUnitSquare(EvalVec(table[i], vs, th, ip))
      ensures ip.Midpoint? ==> OnHalfGrid(EvalVec(table[i], vs, th, ip))
    {
      EvalTableVertex(table[i], vs, th, ip);
    }
  }

  lemma EvalTableSegments(table: seq<RatioSegment>, vs: Corners, th: real, ip: Interpolator)
    requires forall i :: 0 <= i < |table| ==> IsCrossingOf(KeyOf(vs, th), table[i].0) && IsCrossingOf(KeyOf(vs, th), table[i].1)
    ensures forall i :: 0 <= i < |table| ==> Resolvable(table[i].0.x, vs, th) && Resolvable(table[i].0.y, vs, th)
    ensures forall i :: 0 <= i < |table| ==> Resolvable(table[i].1.x, vs, th) && Resolvable(table[i].1.y, vs, th)
    ensures forall i :: 0 <= i < |table| ==> InUnitSquare(EvalVec(table[i].0, vs, th, ip)) && InUnitSquare(EvalVec(table[i].1, vs, th, ip))
    ensures ip.Midpoint? ==> forall i :: 0 <= i < |table| ==> EdgeMidpoint(EvalVec(table[i].0, vs, th, ip)) && EdgeMidpoint(EvalVec(table[i].1, vs, th, ip))
  {
    forall i | 0 <= i < |table|
      ensures Resolvable(table[i].0.x, vs, th) && Resolvable(table[i].0.y, vs, th)
      ensures Resolvable(table[i].1.x, vs, th) && Resolvable(table[i].1.y, vs, th)
      ensures InUnitSquare(EvalVec(table[i].0, vs, th, ip)) && InUnitSquare(EvalVec(table[i].1, vs, th, ip))
      ensures ip.Midpoint? ==> EdgeMidpoint(EvalVec(table[i].0, vs, th, ip)) && EdgeMidpoint(EvalVec(table[i].1, vs, th, ip))
    {
      EvalTableVertex(table[i].0, vs, th, ip);
      EvalTableVertex(table[i].1, vs, th, ip);
    }
  }

  // ---------------------------------------------------------------------
  // From ratios to world coordinates

  /** The world position of a ratio vector in a cell whose top-left,
      top-right and bottom-left points sit at tl, tr and bl: x is lerped
      along the top edge and y along the left edge. */
  function ToWorld(r: Vec, tl: Vec, tr: Vec, bl: Vec): (w: Vec)
    ensures r.x == 0.0 ==> w.x == tl.x
    ensures r.x == 1.0 ==> w.x == tr.x
    ensures r.x == 0.5 ==> w.x == (tl.x + tr.x) / 2.0
    ensures r.y == 0.0 ==> w.y == tl.y
    ensures r.y == 1.0 ==> w.y == bl.y
    ensures r.y == 0.5 ==> w.y == (tl.y + bl.y) / 2.0
    ensures InUnitSquare(r) && tl.x <= tr.x && tl.y <= bl.y ==> tl.x <= w.x <= tr.x && tl.y <= w.y <= bl.y
  {
    if InUnitSquare(r) && tl.x <= tr.x && tl.y <= bl.y then
      LerpBetween(tl.x, tr.x, r.x);
      LerpBetween(tl.y, bl.y, r.y);
      Vec(Lerp(tl.x, tr.x, r.x), Lerp(tl.y, bl.y, r.y))
    else
      Vec(Lerp(tl.x, tr.x, r.x), Lerp(tl.y, bl.y, r.y))
  }

  /** A cell's four corner points at one instant. */
  datatype CellState = CellState(tl: PointState, tr: PointState, br: PointState, bl: PointState) {
    /** The `values` getter. */
    function Values(): Corners {
      Corners(tl.value, tr.value, br.value, bl.value)
    }

    /** A cell classifies all four corners with its top-left point's
        threshold. */
    function Threshold(): real {
      tl.threshold
    }

    /** The top-right point lies right of the top-left one and the
        bottom-left point below it, as in every cell a surface builds. */
    predicate Upright() {
      tl.pos.x <= tr.pos.x && tl.pos.y <= bl.pos.y
    }

    predicate Contains(w: Vec) {
      tl.pos.x <= w.x <= tr.pos.x && tl.pos.y <= w.y <= bl.pos.y
    }

    /** w is a corner of the cell or the midpoint of one of its edges. */
    predicate OnHalfGridOf(w: Vec) {
      && w.x in {tl.pos.x, (tl.pos.x + tr.pos.x) / 2.0, tr.pos.x}
      && w.y in {tl.pos.y, (tl.pos.y + bl.pos.y) / 2.0, bl.pos.y}
      && (w.x in {tl.pos.x, tr.pos.x} || w.y in {tl.pos.y, bl.pos.y})
    }

    /** w is the midpoint of one of the cell's edges. */
    predicate EdgeMidpointOf(w: Vec) {
      || (w.x == (tl.pos.x + tr.pos.x) / 2.0 && w.y in {tl.pos.y, bl.pos.y})
      || (w.y == (tl.pos.y + bl.pos.y) / 2.0 && w.x in {tl.pos.x, tr.pos.x})
    }
  }

  /** getInterpolatedLines: the contour segments of a cell in world
      coordinates. They lie inside the cell; with the regular
      interpolator every endpoint is an edge midpoint. */
  function LineCoords(cs: CellState, ip: Interpolator): (lines: seq<(Vec, Vec)>)
    ensures |lines| == |LineTable(KeyOf(cs.Values(), cs.Threshold()))|
    ensures cs.Upright() ==> forall i :: 0 <= i < |lines| ==> cs.Contains(lines[i].0) && cs.Contains(lines[i].1)
    ensures ip.Midpoint? ==> forall i :: 0 <= i < |lines| ==> cs.EdgeMidpointOf(lines[i].0) && cs.EdgeMidpointOf(lines[i].1)
  {
    var ratios := LineRatios(cs.Values(), cs.Threshold(), ip);
    seq(|ratios|, i requires 0 <= i < |ratios| =>
      (ToWorld(ratios[i].0, cs.tl.pos, cs.tr.pos, cs.bl.pos), ToWorld(ratios[i].1, cs.tl.pos, cs.tr.pos, cs.bl.pos)))
  }

  /** getInterpolatedAreaVertices: the inside polygon of a cell in world
      coordinates. It lies inside the cell; with the regular interpolator
      every vertex is a corner or an edge midpoint. */
  function VertexCoords(cs: CellState, ip: Interpolator): (vertices: seq<Vec>)
    ensures |vertices| == |AreaTable(KeyOf(cs.Values(), cs.Threshold()))|
    ensures cs.Upright() ==> forall i :: 0 <= i < |vertices| ==> cs.Contains(vertices[i])
    ensures ip.Midpoint? ==> forall i :: 0 <= i < |vertices| ==> cs.OnHalfGridOf(vertices[i])
  {
    var ratios := AreaVertexRatios(cs.Values(), cs.Threshold(), ip);
    seq(|ratios|, i requires 0 <= i < |ratios| => ToWorld(ratios[i], cs.tl.pos, cs.tr.pos, cs.bl.pos))
  }

  /** The regular geometry does not depend on the sampled values beyond
      their classification: two cells at the same place with the same key
      get the same segments and the same polygon. */
  lemma RegularGeometryIgnoresMagnitudes(cs: CellState, cs': CellState)
    requires cs.tl.pos == cs'.tl.pos && cs.tr.pos == cs'.tr.pos && cs.bl.pos == cs'.bl.pos
    requires KeyOf(cs.Values(), cs.Threshold()) == KeyOf(cs'.Values(), cs'.Threshold())
    ensures LineCoords(cs, Midpoint) == LineCoords(cs', Midpoint)
    ensures VertexCoords(cs, Midpoint) == VertexCoords(cs', Midpoint)
  {
    var k := KeyOf(cs.Values(), cs.Threshold());
    var a, a' := AreaVertexRatios(cs.Values(), cs.Threshold(), Midpoint), AreaVertexRatios(cs'.Values(), cs'.Threshold(), Midpoint);
    AreaTableVertices(k);
    forall i | 0 <= i < |a| ensures a[i] == a'[i] {
      EvalTableVertex(AreaTable(k)[i], cs.Values(), cs.Threshold(), Midpoint);
      EvalTableVertex(AreaTable(k)[i], cs'.Values(), cs'.Threshold(), Midpoint);
    }
    var l, l' := LineRatios(cs.Values(), cs.Threshold(), Midpoint), LineRatios(cs'.Values(), cs'.Threshold(), Midpoint);
    LineTableEndpoints(k);
    forall i | 0 <= i < |l| ensures l[i] == l'[i] {
      EvalTableVertex(LineTable(k)[i].0, cs.Values(), cs.Threshold(), Midpoint);
      EvalTableVertex(LineTable(k)[i].0, cs'.Values(), cs'.Threshold(), Midpoint);
      EvalTableVertex(LineTable(k)[i].1, cs.Values(), cs.Threshold(), Midpoint);
      EvalTableVertex(LineTable(k)[i].1, cs'.Values(), cs'.Threshold(), Midpoint);
    }
  }

  // ---------------------------------------------------------------------
  // The Cell class

  /** A cell of the surface: four references into the point grid, which
      later updates overwrite in place. Nothing is cached: the key and the
      geometry are recomputed from the points' current values. */
  datatype Cell = Cell(topLeft: Point, topRight: Point, bottomRight: Point, bottomLeft: Point) {
    function Footprint(): set<Point> {
      {topLeft, topRight, bottomRight, bottomLeft}
    }

    function PointAt(c: Corner): Point {
      match c
      case TL => topLeft
      case TR => topRight
      case BR => bottomRight
      case BL => bottomLeft
    }

    function State(): CellState
      reads Footprint()
    {
      CellState(topLeft.State(), topRight.State(), bottomRight.State(), bottomLeft.State())
    }

    /** The `key` getter: one digit per corner, set when the corner's
        current value is strictly above the top-left point's threshold. */
    function Key(): (k: nat)
      reads Footprint()
      ensures k < 16
      ensures forall c :: KeyBit(k, c) <==> PointAt(c).value > topLeft.threshold
    {
      KeyOf(State().Values(), State().Threshold())
    }

    function RegularLineCoords(): (lines: seq<(Vec, Vec)>)
      reads Footprint()
      ensures |lines| == |LineTable(Key())|
      ensures forall i :: 0 <= i < |lines| ==> State().EdgeMidpointOf(lines[i].0) && State().EdgeMidpointOf(lines[i].1)
      ensures State().Upright() ==> forall i :: 0 <= i < |lines| ==> State().Contains(lines[i].0) && State().Contains(lines[i].1)
    {
      LineCoords(State(), Midpoint)
    }

    function InterpolatedLineCoords(): (lines: seq<(Vec, Vec)>)
      reads Footprint()
      ensures |lines| == |LineTable(Key())|
      ensures State().Upright() ==> forall i :: 0 <= i < |lines| ==> State().Contains(lines[i].0) && State().Contains(lines[i].1)
    {
      LineCoords(State(), Linear)
    }

    function RegularVertexCoords(): (vertices: seq<Vec>)
      reads Footprint()
      ensures |vertices| == |AreaTable(Key())|
      ensures forall i :: 0 <= i < |vertices| ==> State().OnHalfGridOf(vertices[i])
      ensures State().Upright() ==> forall i :: 0 <= i < |vertices| ==> State().Contains(vertices[i])
    {
      VertexCoords(State(), Midpoint)
    }

    function InterpolatedVertexCoords(): (vertices: seq<Vec>)
      reads Footprint()
      ensures |vertices| == |AreaTable(Key())|
      ensures State().Upright() ==> forall i :: 0 <= i < |vertices| ==> State().Contains(vertices[i])
    {
      VertexCoords(State(), Linear)
    }
  }
}
