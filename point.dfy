/** A sample of the scalar field: a fixed position, a value that every
    surface update overwrites, and the threshold that classifies it. */
module MetaballPoint {
  import opened Common

  /** What a point holds at one instant; the surface's sampler and the
      cell geometry read points through this snapshot. */
  datatype PointState = PointState(pos: Vec, value: real, threshold: real) {
    /** The binary classification: strictly above the threshold. */
    predicate Above() {
      value > threshold
    }
  }

  /** The grey level `draw(true)` strokes a point with. */
  const White: int := 255
  const Black: int := 0

  /** The fill `drawValue` uses for a point's label. */
  datatype LabelFill = Plain | Highlighted

  class Point {
    // No code writes `pos` or `threshold` after construction.
    const pos: Vec
    var value: real
    const threshold: real

    constructor (pos: Vec, value: real, threshold: real)
      ensures this.pos == pos && this.value == value && this.threshold == threshold
    {
      this.pos := pos;
      this.value := value;
      this.threshold := threshold;
    }

    function State(): (s: PointState)
      reads this
      ensures s.pos == pos && s.value == value && s.threshold == threshold
    {
      PointState(pos, value, threshold)
    }

    method SetValue(value: real)
      modifies this
      ensures this.value == value
      ensures State() == old(State()).(value := value)
    {
      this.value := value;
    }

    /** The stroke grey of `draw(true)`: white exactly when the point is
        above its threshold, black otherwise (equality is black). */
    function BinaryGrey(): (g: int)
      reads this
      ensures g == White <==> State().Above()
      ensures g == Black <==> !State().Above()
    {
      if value > threshold then White else Black
    }

    /** The label fill of `drawValue`: highlighted exactly when the point
        is above its threshold. */
    function ValueLabelFill(): (f: LabelFill)
      reads this
      ensures f == Highlighted <==> State().Above()
    {
      if value > threshold then Highlighted else Plain
    }
  }
}
