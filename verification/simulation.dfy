/** The sketch's `Model` and its per-frame `update`: the attractor moves first,
    then every node responds to it, in order. */
module Simulation {
  import opened Geometry
  import opened Attractor
  import opened Nodes
  import opened Grid
  import opened Frames

  /** Configuration fixed in `model`. */
  const Rows: nat := 30
  const Cols: nat := 30
  const NodeRadius: real := 20.0
  const AttractorPadding: real := 300.0
  const AttractorStart: Vec2 := Vec2(-50.0, 0.0)

  /** The sketch's `Model`, without its window handle. */
  class Model {
    var nodes: seq<Node>
    var point: Point
    var outPath: Path

    ghost predicate Valid()
      reads this
    {
      Distinct(nodes)
    }

    /** `model`: the attractor at (-50, 0) bounded by the window padded by 300,
        a 30 × 30 grid of nodes of radius 20 built against it, and the output
        directory. */
    constructor (win: Rect, outPath: Path, num: Numerics)
      ensures Valid()
      ensures fresh(point)
      ensures point.Position() == AttractorStart
      ensures point.Bounds() == win.Pad(AttractorPadding)
      ensures |nodes| == Rows * Cols == 900
      ensures forall k :: 0 <= k < |nodes| ==> fresh(nodes[k])
      ensures forall k :: 0 <= k < |nodes| ==>
                BuiltAt(nodes[k], k, Rows, Cols, win, point.Position(), NodeRadius, num)
      ensures this.outPath == outPath
    {
      var p := new Point(AttractorStart.x, AttractorStart.y, win.Pad(AttractorPadding));
      var ns := CreateNodes(Rows, Cols, win, p, NodeRadius, num);
      point := p;
      nodes := ns;
      this.outPath := outPath;
    }

    /** `update`: advances the attractor to elapsed time `time`, then updates every
        node, in order, against that same advanced attractor; `samples[i]` holds
        the random draws for node `i`. The nodes themselves, their order and their
        centers do not change. */
    method Update(time: real, num: Numerics, samples: seq<Rgb>)
      requires Valid()
      requires |samples| == |nodes|
      modifies point, nodes
      ensures Valid()
      ensures nodes == old(nodes) && point == old(point)
      ensures point.Bounds() == old(point.Bounds())
      ensures point.Position() == PositionAt(time, point.Bounds(), num)
      ensures forall i :: 0 <= i < |nodes| ==> nodes[i].center == old(nodes[i].center)
      ensures forall i :: 0 <= i < |nodes| ==>
                nodes[i].Look() == Responded(nodes[i].center, point.Position(), num, samples[i])
    {
      point.Update(time, num);
      for i := 0 to |nodes|
        invariant point.Bounds() == old(point.Bounds())
        invariant point.Position() == PositionAt(time, point.Bounds(), num)
        invariant forall j :: 0 <= j < |nodes| ==> nodes[j].center == old(nodes[j].center)
        invariant forall j :: 0 <= j < i ==>
                    nodes[j].Look() == Responded(nodes[j].center, point.Position(), num, samples[j])
      {
        nodes[i].Update(point, num, samples[i]);
      }
    }
  }
}
