/** The grid builder (`create_nodes`): rows × cols nodes in row-major order. */
module Grid {
  import opened Geometry
  import opened Attractor
  import opened Nodes

  /** Inward padding of the window before the grid is laid out. */
  const GridPadding: real := 200.0

  /** Horizontal spacing: the padded width over `cols - 1`. */
  function XGap(win: Rect, cols: nat): real
    requires cols != 1
  {
    var p := win.Pad(GridPadding);
    (p.right - p.left) / (cols as real - 1.0)
  }

  /** Vertical spacing: the padded height over `rows - 1`. */
  function YGap(win: Rect, rows: nat): real
    requires rows != 1
  {
    var p := win.Pad(GridPadding);
    (p.top - p.bottom) / (rows as real - 1.0)
  }

  /** The resting center of the node built at (`row`, `col`): the row index steps
      along x by the column spacing, the column index along y by the row spacing. */
  function GridCenter(win: Rect, rows: nat, cols: nat, row: nat, col: nat): Vec2
    requires rows != 1 && cols != 1
  {
    var p := win.Pad(GridPadding);
    Vec2(p.left + row as real * XGap(win, cols), p.bottom + col as real * YGap(win, rows))
  }

  /** `k * (w / (n - 1))` is the fraction `k / (n - 1)` of `w`. */
  lemma ScaledGap(k: nat, n: nat, w: real)
    requires n >= 2
    ensures k as real * (w / (n as real - 1.0)) == w * (k as real / (n as real - 1.0))
  {
  }

  /** The first node sits on the bottom-left corner of the padded window; the row
      index `cols - 1` reaches its right edge and the column index `rows - 1` its top. */
  lemma GridCenterCorners(win: Rect, rows: nat, cols: nat)
    requires rows >= 2 && cols >= 2
    ensures GridCenter(win, rows, cols, 0, 0) == Vec2(win.Pad(GridPadding).left, win.Pad(GridPadding).bottom)
    ensures GridCenter(win, rows, cols, cols - 1, rows - 1) ==
            Vec2(win.Pad(GridPadding).right, win.Pad(GridPadding).top)
  {
    var p := win.Pad(GridPadding);
    var cw := cols as real - 1.0;
    var rh := rows as real - 1.0;
    assert (cols - 1) as real == cw;
    assert cw * ((p.right - p.left) / cw) == p.right - p.left;
    assert (rows - 1) as real == rh;
    assert rh * ((p.top - p.bottom) / rh) == p.top - p.bottom;
  }

  /** For a square grid over a padded window that is not inverted, every center lies
      inside the padded window. */
  lemma SquareGridInside(win: Rect, n: nat, row: nat, col: nat)
    requires n >= 2 && row < n && col < n
    requires win.Pad(GridPadding).left <= win.Pad(GridPadding).right
    requires win.Pad(GridPadding).bottom <= win.Pad(GridPadding).top
    ensures var p := win.Pad(GridPadding);
            var c := GridCenter(win, n, n, row, col);
            p.left <= c.x <= p.right && p.bottom <= c.y <= p.top
  {
    var p := win.Pad(GridPadding);
    var d := n as real - 1.0;
    ScaledGap(row, n, p.right - p.left);
    UnitFraction(row as real, d);
    NonNegProduct(p.right - p.left, row as real / d);
    NonNegProduct(p.right - p.left, 1.0 - row as real / d);
    ScaledGap(col, n, p.top - p.bottom);
    UnitFraction(col as real, d);
    NonNegProduct(p.top - p.bottom, col as real / d);
    NonNegProduct(p.top - p.bottom, 1.0 - col as real / d);
  }

  /** A quotient of a larger by a smaller positive number exceeds 1. */
  lemma RatioAboveOne(k: real, d: real)
    requires 0.0 < d < k
    ensures k / d > 1.0
  {
    var q := k / d;
    assert q * d == k;
    assert (q - 1.0) * d == k - d;
  }

  /** Because the row index steps along x by the column spacing, a grid with more
      rows than columns runs past the right edge of a padded window of positive width. */
  lemma TallGridOverruns(win: Rect, rows: nat, cols: nat)
    requires rows > cols >= 2
    requires win.Pad(GridPadding).left < win.Pad(GridPadding).right
    ensures GridCenter(win, rows, cols, rows - 1, 0).x > win.Pad(GridPadding).right
  {
    var p := win.Pad(GridPadding);
    var w := p.right - p.left;
    var d := cols as real - 1.0;
    var k := (rows - 1) as real;
    ScaledGap(rows - 1, cols, w);
    RatioAboveOne(k, d);
    var q := k / d;
    assert w * q - w == w * (q - 1.0);
    NonNegProduct(w, q - 1.0);
    assert w * (q - 1.0) != 0.0;
  }

  /** A grid cell by its loop indices. */
  datatype Cell = Cell(row: nat, col: nat)

  /** The cell whose node is element `k` of a row-major sequence with `cols` columns. */
  function CellOf(k: nat, cols: nat): (c: Cell)
    requires cols > 0
    ensures c.col < cols && c.row * cols + c.col == k
    decreases k
  {
    if k < cols then Cell(0, k) else var c := CellOf(k - cols, cols); Cell(c.row + 1, c.col)
  }

  /** Row-major numbering: cell (`row`, `col`) is element `row * cols + col`. */
  lemma {:induction false} CellOfIndex(row: nat, col: nat, cols: nat)
    requires col < cols
    ensures CellOf(row * cols + col, cols) == Cell(row, col)
  {
    if row > 0 {
      CellOfIndex(row - 1, col, cols);
      assert row * cols + col - cols == (row - 1) * cols + col;
    }
  }

  /** The node at index `k` of the result of `CreateNodes(rows, cols, win, target, radius, num)`:
      centered on its grid cell and initialised against the attractor at `target`. */
  ghost predicate BuiltAt(node: Node, k: nat, rows: nat, cols: nat, win: Rect, target: Vec2,
                          radius: real, num: Numerics)
    requires rows != 1 && cols != 1
    reads node
  {
    && cols > 0
    && node.center == GridCenter(win, rows, cols, CellOf(k, cols).row, CellOf(k, cols).col)
    && node.Look() == Initial(node.center, target, radius, num)
  }

  /** Appending the node built for the next index keeps every node built at its index. */
  lemma BuiltAppend(nodes: seq<Node>, node: Node, rows: nat, cols: nat, win: Rect, target: Vec2,
                    radius: real, num: Numerics)
    requires rows != 1 && cols != 1
    requires forall k :: 0 <= k < |nodes| ==> BuiltAt(nodes[k], k, rows, cols, win, target, radius, num)
    requires BuiltAt(node, |nodes|, rows, cols, win, target, radius, num)
    ensures forall k :: 0 <= k < |nodes + [node]| ==>
              BuiltAt((nodes + [node])[k], k, rows, cols, win, target, radius, num)
  {
  }

  /** The body of `create_nodes`' inner loop: the node for cell (`row`, `col`). */
  method NewGridNode(row: nat, col: nat, rows: nat, cols: nat, win: Rect, target: Point,
                     radius: real, num: Numerics)
    returns (node: Node)
    requires rows != 1 && cols != 1
    ensures fresh(node)
    ensures node.center == GridCenter(win, rows, cols, row, col)
    ensures node.Look() == Initial(node.center, target.Position(), radius, num)
  {
    var winP := win.Pad(GridPadding);
    var xGap := (winP.right - winP.left) / (cols as real - 1.0);
    var yGap := (winP.top - winP.bottom) / (rows as real - 1.0);
    var xCenter := winP.left + row as real * xGap;
    var yCenter := winP.bottom + col as real * yGap;
    assert xGap == XGap(win, cols) && yGap == YGap(win, rows);
    var rad := num.angleBetween(Vec2(xCenter, yCenter), Vec2(target.x, target.y));
    var x := xCenter + num.sin(rad) * radius;
    var y := yCenter + num.cos(rad) * radius;
    node := new Node(Vec2(xCenter, yCenter), x, y, radius);
  }

  /** One pass of `create_nodes`' outer loop: appends the `cols` nodes of row
      `row`, in column order, to the nodes of the rows before it. */
  method AppendRow(prefix: seq<Node>, row: nat, rows: nat, cols: nat, win: Rect, target: Point,
                   radius: real, num: Numerics)
    returns (nodes: seq<Node>)
    requires rows != 1 && cols != 1
    requires |prefix| == row * cols && Distinct(prefix)
    requires forall k :: 0 <= k < |prefix| ==>
               BuiltAt(prefix[k], k, rows, cols, win, target.Position(), radius, num)
    ensures |nodes| == (row + 1) * cols && nodes[..|prefix|] == prefix
    ensures Distinct(nodes)
    ensures forall k :: |prefix| <= k < |nodes| ==> fresh(nodes[k])
    ensures forall k :: 0 <= k < |nodes| ==>
              BuiltAt(nodes[k], k, rows, cols, win, target.Position(), radius, num)
  {
    nodes := prefix;
    for col := 0 to cols
      invariant |nodes| == row * cols + col && nodes[..|prefix|] == prefix
      invariant Distinct(nodes)
      invariant forall k :: |prefix| <= k < |nodes| ==> fresh(nodes[k])
      invariant forall k :: 0 <= k < |nodes| ==>
                  BuiltAt(nodes[k], k, rows, cols, win, target.Position(), radius, num)
    {
      var node := NewGridNode(row, col, rows, cols, win, target, radius, num);
      CellOfIndex(row, col, cols);
      BuiltAppend(nodes, node, rows, cols, win, target.Position(), radius, num);
      DistinctAppend(nodes, node);
      nodes := nodes + [node];
    }
    assert row * cols + cols == (row + 1) * cols;
  }

  /** `create_nodes`: builds `rows * cols` fresh nodes, row by row and column by
      column, each offset by `radius` along (sin θ, cos θ), θ the angle between its
      center and the attractor as vectors from the origin. */
  method CreateNodes(rows: nat, cols: nat, win: Rect, target: Point, radius: real, num: Numerics)
    returns (nodes: seq<Node>)
    requires rows != 1 && cols != 1
    ensures |nodes| == rows * cols
    ensures Distinct(nodes)
    ensures forall k :: 0 <= k < |nodes| ==> fresh(nodes[k])
    ensures forall k :: 0 <= k < |nodes| ==>
              BuiltAt(nodes[k], k, rows, cols, win, target.Position(), radius, num)
  {
    nodes := [];
    for row := 0 to rows
      invariant |nodes| == row * cols
      invariant Distinct(nodes)
      invariant forall k :: 0 <= k < |nodes| ==> fresh(nodes[k])
      invariant forall k :: 0 <= k < |nodes| ==>
                  BuiltAt(nodes[k], k, rows, cols, win, target.Position(), radius, num)
    {
      var prefix := nodes;
      nodes := AppendRow(prefix, row, rows, cols, win, target, radius, num);
      assert forall k :: 0 <= k < |prefix| ==> nodes[k] == prefix[k];
    }
  }
}
