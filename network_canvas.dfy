/** The animated node field drawn behind the landing page.  Nodes drift at a
    constant velocity, bounce off the canvas edges, and are joined by lines to
    each other and to the pointer when they are close enough.  Each frame is
    described by an abstract draw list instead of canvas calls. */
module NetworkCanvas {

  /** One node of the field: position and velocity in pixels (per frame) and
      the radius of its dot. */
  datatype Node = Node(x: real, y: real, vx: real, vy: real, radius: real)

  /** An `rgba(r, g, b, alpha)` colour as handed to the 2D context. */
  datatype Color = Rgba(r: nat, g: nat, b: nat, alpha: real)

  /** The drawing calls of one frame.  A pair edge and a pointer link also
      carry the indices of the nodes they start from (and end at). */
  datatype Prim =
    | Clear(width: nat, height: nat)
    | Edge(i: nat, j: nat, x1: real, y1: real, x2: real, y2: real, stroke: Color, lineWidth: nat)
    | MouseLink(i: nat, x1: real, y1: real, x2: real, y2: real, stroke: Color, lineWidth: nat)
    | Circle(x: real, y: real, radius: real, fill: Color)

  /** Canvas area, in square pixels, that accounts for one node. */
  const AreaPerNode: nat := 15000
  /** Two nodes closer than this are joined by a line. */
  const EdgeDistance: real := 100.0
  /** A node closer than this to the pointer is joined to it. */
  const MouseDistance: real := 150.0
  /** Random draws consumed by one new node: x, y, vx, vy, radius. */
  const DrawsPerNode: nat := 5

  // ---------------------------------------------------------------------
  // Theme colours

  predicate IsDark(theme: string) { theme == "dark" }

  function NodeColor(isDark: bool): (c: Color) { Rgba(0, 180, 216, if isDark then 0.6 else 0.4) }

  function LineColor(isDark: bool): (c: Color) { Rgba(0, 180, 216, if isDark then 0.2 else 0.15) }

  function LinkColor(isDark: bool): (c: Color) { Rgba(0, 180, 216, if isDark then 0.4 else 0.3) }

  // ---------------------------------------------------------------------
  // Seeding the field

  /** `Math.floor(width * height / 15000)`: the number of nodes for a canvas. */
  function NodeCount(width: nat, height: nat): (count: nat)
    ensures count * AreaPerNode <= width * height < (count + 1) * AreaPerNode
    ensures count == 0 <==> width * height < AreaPerNode
  {
    (width * height) / AreaPerNode
  }

  /** Values a random source in [0, 1) may produce. */
  predicate UnitRandoms(rs: seq<real>)
  {
    forall k :: 0 <= k < |rs| ==> 0.0 <= rs[k] < 1.0
  }

  /** Node `i` of a new field, built from the random draws 5i .. 5i+4 in the
      order the object literal evaluates them. */
  function SpawnNode(width: nat, height: nat, rs: seq<real>, i: nat): (n: Node)
    requires DrawsPerNode * i + DrawsPerNode <= |rs|
  {
    var b := DrawsPerNode * i;
    Node(rs[b] * width as real,
         rs[b + 1] * height as real,
         (rs[b + 2] - 0.5) * 0.5,
         (rs[b + 3] - 0.5) * 0.5,
         rs[b + 4] * 2.0 + 1.0)
  }

  /** The whole field after a (re)initialisation. */
  function Spawned(width: nat, height: nat, rs: seq<real>): (ns: seq<Node>)
    requires DrawsPerNode * NodeCount(width, height) <= |rs|
  {
    var count := NodeCount(width, height);
    seq(count, k requires 0 <= k < count => SpawnNode(width, height, rs, k))
  }

  /** The ranges a freshly spawned node lies in. */
  predicate SpawnRange(n: Node, width: nat, height: nat)
  {
    && 0.0 <= n.x < width as real
    && 0.0 <= n.y < height as real
    && -0.25 <= n.vx < 0.25
    && -0.25 <= n.vy < 0.25
    && 1.0 <= n.radius < 3.0
  }

  lemma ScaleBelow(r: real, d: nat)
    requires 0.0 <= r < 1.0 && 0 < d
    ensures 0.0 <= r * d as real < d as real
  {
    assert (1.0 - r) * d as real > 0.0;
  }

  lemma SpawnNodeRange(width: nat, height: nat, rs: seq<real>, i: nat)
    requires DrawsPerNode * i + DrawsPerNode <= |rs|
    requires UnitRandoms(rs) && width != 0 && height != 0
    ensures SpawnRange(SpawnNode(width, height, rs, i), width, height)
  {
    var b := DrawsPerNode * i;
    assert 0.0 <= rs[b] < 1.0 && 0.0 <= rs[b + 1] < 1.0;
    assert 0.0 <= rs[b + 2] < 1.0 && 0.0 <= rs[b + 3] < 1.0 && 0.0 <= rs[b + 4] < 1.0;
    ScaleBelow(rs[b], width);
    ScaleBelow(rs[b + 1], height);
  }

  /** A new field has exactly `floor(width*height/15000)` nodes, and with
      random draws in [0, 1) every node starts strictly inside the canvas,
      with each velocity component in [-0.25, 0.25) and radius in [1, 3). */
  lemma SpawnedFacts(width: nat, height: nat, rs: seq<real>)
    requires DrawsPerNode * NodeCount(width, height) <= |rs|
    requires UnitRandoms(rs)
    ensures |Spawned(width, height, rs)| == NodeCount(width, height)
    ensures forall k :: 0 <= k < |Spawned(width, height, rs)| ==>
              SpawnRange(Spawned(width, height, rs)[k], width, height)
  {
    var ns := Spawned(width, height, rs);
    forall k | 0 <= k < |ns| ensures SpawnRange(ns[k], width, height) {
      assert width * height >= AreaPerNode;
      SpawnNodeRange(width, height, rs, k);
    }
  }

  /** Too small a canvas (zero area included) has no nodes at all. */
  lemma SmallCanvasIsEmpty(width: nat, height: nat, rs: seq<real>)
    requires width * height < AreaPerNode
    ensures Spawned(width, height, rs) == []
  {
  }

  // ---------------------------------------------------------------------
  // The proximity graph of one frame

  /** `Math.sqrt(d) < t` for the non-negative root `r` of `d` decides the
      same as `d < t * t`, so the model compares squared distances. */
  lemma RootThreshold(d: real, r: real, t: real)
    requires 0.0 <= r && r * r == d && 0.0 < t
    ensures r < t <==> d < t * t
  {
    var gap := t - r;
    assert t * t == r * r + gap * (t + r);
    if r < t {
      assert gap * (t + r) > 0.0;
    } else {
      assert gap * (t + r) <= 0.0;
    }
  }

  /** `dx * dx + dy * dy` for the offset from (x2, y2) to (x1, y1). */
  function SquaredDistance(x1: real, y1: real, x2: real, y2: real): (d: real)
    ensures d >= 0.0
  {
    (x1 - x2) * (x1 - x2) + (y1 - y2) * (y1 - y2)
  }

  predicate Near(a: Node, b: Node)
  {
    SquaredDistance(a.x, a.y, b.x, b.y) < EdgeDistance * EdgeDistance
  }

  predicate NearPointer(a: Node, mx: real, my: real)
  {
    SquaredDistance(a.x, a.y, mx, my) < MouseDistance * MouseDistance
  }

  /** The line drawn between nodes `i` and `j`. */
  function EdgeOf(ns: seq<Node>, i: nat, j: nat, stroke: Color): (p: Prim)
    requires i < |ns| && j < |ns|
  {
    Edge(i, j, ns[i].x, ns[i].y, ns[j].x, ns[j].y, stroke, 1)
  }

  /** The line drawn from node `i` to the pointer. */
  function LinkOf(ns: seq<Node>, i: nat, mx: real, my: real, stroke: Color): (p: Prim)
    requires i < |ns|
  {
    MouseLink(i, ns[i].x, ns[i].y, mx, my, stroke, 2)
  }

  /** The edges `(i, j)` for `i < j < k`, in increasing `j`. */
  function PairEdges(ns: seq<Node>, i: nat, k: nat, stroke: Color): (row: seq<Prim>)
    requires i < |ns| && k <= |ns|
    decreases k
  {
    if k <= i + 1 then []
    else PairEdges(ns, i, k - 1, stroke)
         + (if Near(ns[i], ns[k - 1]) then [EdgeOf(ns, i, k - 1, stroke)] else [])
  }

  /** The pointer link of node `i`, if it is close enough. */
  function PointerLink(ns: seq<Node>, i: nat, mx: real, my: real, stroke: Color): (link: seq<Prim>)
    requires i < |ns|
  {
    if NearPointer(ns[i], mx, my) then [LinkOf(ns, i, mx, my, stroke)] else []
  }

  /** What rows `0 .. n-1` of the connection loop draw: for each `i`, its
      edges to later nodes and then its pointer link. */
  function Links(ns: seq<Node>, n: nat, mx: real, my: real, isDark: bool): (lines: seq<Prim>)
    requires n <= |ns|
    decreases n
  {
    if n == 0 then []
    else Links(ns, n - 1, mx, my, isDark)
         + PairEdges(ns, n - 1, |ns|, LineColor(isDark))
         + PointerLink(ns, n - 1, mx, my, LinkColor(isDark))
  }

  /** The dots of nodes `0 .. n-1`. */
  function Circles(ns: seq<Node>, n: nat, fill: Color): (dots: seq<Prim>)
    requires n <= |ns|
    decreases n
  {
    if n == 0 then []
    else Circles(ns, n - 1, fill) + [Circle(ns[n - 1].x, ns[n - 1].y, ns[n - 1].radius, fill)]
  }

  /** The draw list of one frame, computed from the node positions at the
      start of the frame. */
  function Frame(ns: seq<Node>, width: nat, height: nat, mx: real, my: real, isDark: bool): (frame: seq<Prim>)
  {
    [Clear(width, height)] + Links(ns, |ns|, mx, my, isDark) + Circles(ns, |ns|, NodeColor(isDark))
  }

  // Element-wise facts about the pieces of a frame.

  lemma {:induction false} PairEdgesMembers(ns: seq<Node>, i: nat, k: nat, stroke: Color)
    requires i < |ns| && k <= |ns|
    ensures forall p :: p in PairEdges(ns, i, k, stroke) ==>
              p.Edge? && p.i == i && i < p.j < k && p.j < |ns| &&
              Near(ns[i], ns[p.j]) && p == EdgeOf(ns, i, p.j, stroke)
    ensures forall j :: i < j < k && Near(ns[i], ns[j]) ==> EdgeOf(ns, i, j, stroke) in PairEdges(ns, i, k, stroke)
    decreases k
  {
    if k > i + 1 {
      PairEdgesMembers(ns, i, k - 1, stroke);
    }
  }

  /** `p` is a close pair edge `(i, j)` with `i < j` and `i < n`, or the
      pointer link of a node `i < n` close to the pointer. */
  predicate LineOfRows(ns: seq<Node>, n: nat, p: Prim, mx: real, my: real, isDark: bool)
  {
    || (p.Edge? && p.i < p.j < |ns| && p.i < n &&
        Near(ns[p.i], ns[p.j]) && p == EdgeOf(ns, p.i, p.j, LineColor(isDark)))
    || (p.MouseLink? && p.i < n && p.i < |ns| &&
        NearPointer(ns[p.i], mx, my) && p == LinkOf(ns, p.i, mx, my, LinkColor(isDark)))
  }

  /** Every line drawn by rows `0 .. n-1` is a close pair edge `(i, j)`
      with `i < j`, or the pointer link of a node close to the pointer. */
  lemma {:induction false} LinksWellFormed(ns: seq<Node>, n: nat, mx: real, my: real, isDark: bool)
    requires n <= |ns|
    ensures forall p :: p in Links(ns, n, mx, my, isDark) ==> LineOfRows(ns, n, p, mx, my, isDark)
    decreases n
  {
    if n > 0 {
      LinksWellFormed(ns, n - 1, mx, my, isDark);
      PairEdgesMembers(ns, n - 1, |ns|, LineColor(isDark));
      var a := Links(ns, n - 1, mx, my, isDark);
      var b := PairEdges(ns, n - 1, |ns|, LineColor(isDark));
      var c := PointerLink(ns, n - 1, mx, my, LinkColor(isDark));
      assert Links(ns, n, mx, my, isDark) == a + b + c;
      forall p: Prim | p in a + b + c
        ensures LineOfRows(ns, n, p, mx, my, isDark)
      {
        assert p in a || p in b || p in c;
      }
    }
  }

  /** Rows `0 .. n-1` draw every close pair edge they are responsible for. */
  lemma {:induction false} LinksHaveEdges(ns: seq<Node>, n: nat, mx: real, my: real, isDark: bool)
    requires n <= |ns|
    ensures forall i, j :: 0 <= i < n && i < j < |ns| && Near(ns[i], ns[j]) ==>
              EdgeOf(ns, i, j, LineColor(isDark)) in Links(ns, n, mx, my, isDark)
    decreases n
  {
    if n > 0 {
      LinksHaveEdges(ns, n - 1, mx, my, isDark);
      PairEdgesMembers(ns, n - 1, |ns|, LineColor(isDark));
    }
  }

  /** Rows `0 .. n-1` draw the pointer link of every node close to it. */
  lemma {:induction false} LinksHavePointerLinks(ns: seq<Node>, n: nat, mx: real, my: real, isDark: bool)
    requires n <= |ns|
    ensures forall i :: 0 <= i < n && NearPointer(ns[i], mx, my) ==>
              LinkOf(ns, i, mx, my, LinkColor(isDark)) in Links(ns, n, mx, my, isDark)
    decreases n
  {
    if n > 0 {
      LinksHavePointerLinks(ns, n - 1, mx, my, isDark);
    }
  }

  lemma {:induction false} CirclesAt(ns: seq<Node>, n: nat, fill: Color)
    requires n <= |ns|
    ensures |Circles(ns, n, fill)| == n
    ensures forall k :: 0 <= k < n ==>
              Circles(ns, n, fill)[k] == Circle(ns[k].x, ns[k].y, ns[k].radius, fill)
    ensures forall p :: p in Circles(ns, n, fill) ==> p.Circle?
    decreases n
  {
    if n > 0 {
      CirclesAt(ns, n - 1, fill);
    }
  }

  /** A pair edge between nodes `i` and `j` is in the frame exactly when
      `i < j` and the nodes are closer than 100; it then runs between their
      positions at the start of the frame, in the edge colour, one pixel
      wide.  No other edge is drawn, so there are no self-edges. */
  lemma EdgeInFrame(ns: seq<Node>, width: nat, height: nat, mx: real, my: real, isDark: bool)
    ensures forall p :: p in Frame(ns, width, height, mx, my, isDark) && p.Edge? ==>
              p.i < p.j < |ns| && Near(ns[p.i], ns[p.j]) &&
              p == EdgeOf(ns, p.i, p.j, LineColor(isDark)) && p.lineWidth == 1
    ensures forall i, j :: 0 <= i < j < |ns| ==>
              (EdgeOf(ns, i, j, LineColor(isDark)) in Frame(ns, width, height, mx, my, isDark)
               <==> Near(ns[i], ns[j]))
  {
    LinksWellFormed(ns, |ns|, mx, my, isDark);
    LinksHaveEdges(ns, |ns|, mx, my, isDark);
    CirclesAt(ns, |ns|, NodeColor(isDark));
  }

  /** A pointer link for node `i` is in the frame exactly when the node is
      closer than 150 to the pointer; it runs from the node's position at the
      start of the frame to the pointer, two pixels wide. */
  lemma MouseLinkInFrame(ns: seq<Node>, width: nat, height: nat, mx: real, my: real, isDark: bool)
    ensures forall p :: p in Frame(ns, width, height, mx, my, isDark) && p.MouseLink? ==>
              p.i < |ns| && NearPointer(ns[p.i], mx, my) &&
              p == LinkOf(ns, p.i, mx, my, LinkColor(isDark)) && p.lineWidth == 2
    ensures forall i :: 0 <= i < |ns| ==>
              (LinkOf(ns, i, mx, my, LinkColor(isDark)) in Frame(ns, width, height, mx, my, isDark)
               <==> NearPointer(ns[i], mx, my))
  {
    LinksWellFormed(ns, |ns|, mx, my, isDark);
    LinksHavePointerLinks(ns, |ns|, mx, my, isDark);
    CirclesAt(ns, |ns|, NodeColor(isDark));
  }

  lemma LinksAreLines(ns: seq<Node>, mx: real, my: real, isDark: bool)
    ensures forall k :: 0 <= k < |Links(ns, |ns|, mx, my, isDark)| ==>
              Links(ns, |ns|, mx, my, isDark)[k].Edge? || Links(ns, |ns|, mx, my, isDark)[k].MouseLink?
  {
    var links := Links(ns, |ns|, mx, my, isDark);
    LinksWellFormed(ns, |ns|, mx, my, isDark);
    forall k | 0 <= k < |links| ensures links[k].Edge? || links[k].MouseLink? {
      assert links[k] in links;
    }
  }

  /** The frame opens with the clear, ends with one dot per node in node
      order (at the node's position at the start of the frame), and every
      line comes before every dot. */
  lemma FrameLayout(ns: seq<Node>, width: nat, height: nat, mx: real, my: real, isDark: bool)
    ensures var f := Frame(ns, width, height, mx, my, isDark);
      |f| == 1 + |Links(ns, |ns|, mx, my, isDark)| + |ns| && f[0] == Clear(width, height)
    ensures var f := Frame(ns, width, height, mx, my, isDark);
      forall k :: 0 <= k < |ns| ==>
        f[|f| - |ns| + k] == Circle(ns[k].x, ns[k].y, ns[k].radius, NodeColor(isDark))
    ensures var f := Frame(ns, width, height, mx, my, isDark);
      forall k :: 0 < k < |f| - |ns| ==> f[k].Edge? || f[k].MouseLink?
    ensures var f := Frame(ns, width, height, mx, my, isDark);
      forall k :: |f| - |ns| <= k < |f| ==> f[k].Circle?
  {
    var links := Links(ns, |ns|, mx, my, isDark);
    var circles := Circles(ns, |ns|, NodeColor(isDark));
    LinksAreLines(ns, mx, my, isDark);
    CirclesAt(ns, |ns|, NodeColor(isDark));
    var f := Frame(ns, width, height, mx, my, isDark);
    assert f == [Clear(width, height)] + links + circles;
    forall k | 0 < k < |f| - |ns| ensures f[k].Edge? || f[k].MouseLink? {
      assert f[k] == links[k - 1];
    }
    forall k | |f| - |ns| <= k < |f| ensures f[k].Circle? {
      assert f[k] == circles[k - 1 - |links|];
    }
    forall k | 0 <= k < |ns|
      ensures f[|f| - |ns| + k] == Circle(ns[k].x, ns[k].y, ns[k].radius, NodeColor(isDark))
    {
      assert f[|f| - |ns| + k] == circles[k];
    }
  }

  /** A frame with no nodes clears the canvas and draws nothing else. */
  lemma EmptyFrame(width: nat, height: nat, mx: real, my: real, isDark: bool)
    ensures Frame([], width, height, mx, my, isDark) == [Clear(width, height)]
  {
  }

  // The order of the connection loop.

  /** Loop position of a line: row `i`, then column `j` for a pair edge and
      column `n` (after every pair) for the pointer link. */
  function Row(p: Prim): (i: nat)
  {
    match p
    case Edge(i, _, _, _, _, _, _, _) => i
    case MouseLink(i, _, _, _, _, _, _) => i
    case _ => 0
  }

  function Column(p: Prim, n: nat): (j: nat)
  {
    match p
    case Edge(_, j, _, _, _, _, _, _) => j
    case _ => n
  }

  predicate Earlier(p: Prim, q: Prim, n: nat)
  {
    Row(p) < Row(q) || (Row(p) == Row(q) && Column(p, n) < Column(q, n))
  }

  /** Strictly increasing loop positions. */
  ghost predicate InLoopOrder(s: seq<Prim>, n: nat)
  {
    forall p, q :: 0 <= p < q < |s| ==> Earlier(s[p], s[q], n)
  }

  lemma ConcatInLoopOrder(a: seq<Prim>, b: seq<Prim>, n: nat)
    requires InLoopOrder(a, n) && InLoopOrder(b, n)
    requires forall x, y :: x in a && y in b ==> Earlier(x, y, n)
    ensures InLoopOrder(a + b, n)
  {
    var s := a + b;
    forall p, q | 0 <= p < q < |s| ensures Earlier(s[p], s[q], n) {
      if q < |a| {
        assert s[p] == a[p] && s[q] == a[q];
      } else if p >= |a| {
        assert s[p] == b[p - |a|] && s[q] == b[q - |a|];
      } else {
        assert s[p] == a[p] && a[p] in a;
        assert s[q] == b[q - |a|] && b[q - |a|] in b;
      }
    }
  }

  lemma {:induction false} PairEdgesInLoopOrder(ns: seq<Node>, i: nat, k: nat, stroke: Color)
    requires i < |ns| && k <= |ns|
    ensures InLoopOrder(PairEdges(ns, i, k, stroke), |ns|)
    decreases k
  {
    if k > i + 1 {
      PairEdgesInLoopOrder(ns, i, k - 1, stroke);
      PairEdgesMembers(ns, i, k - 1, stroke);
      var last := if Near(ns[i], ns[k - 1]) then [EdgeOf(ns, i, k - 1, stroke)] else [];
      ConcatInLoopOrder(PairEdges(ns, i, k - 1, stroke), last, |ns|);
    }
  }

  /** The connection loop draws its lines in strictly increasing loop
      position: row by row, the pair edges of a row by increasing partner,
      then the row's pointer link.  In particular no line is drawn twice, and
      no pair of nodes is joined twice in either orientation. */
  lemma {:induction false} LinksInLoopOrder(ns: seq<Node>, n: nat, mx: real, my: real, isDark: bool)
    requires n <= |ns|
    ensures InLoopOrder(Links(ns, n, mx, my, isDark), |ns|)
    decreases n
  {
    if n > 0 {
      var i := n - 1;
      var before := Links(ns, i, mx, my, isDark);
      var pairs := PairEdges(ns, i, |ns|, LineColor(isDark));
      var link := PointerLink(ns, i, mx, my, LinkColor(isDark));
      LinksInLoopOrder(ns, i, mx, my, isDark);
      LinksWellFormed(ns, i, mx, my, isDark);
      PairEdgesInLoopOrder(ns, i, |ns|, LineColor(isDark));
      PairEdgesMembers(ns, i, |ns|, LineColor(isDark));
      ConcatInLoopOrder(pairs, link, |ns|);
      ConcatInLoopOrder(before, pairs + link, |ns|);
      assert before + pairs + link == before + (pairs + link);
    }
  }

  /** The connection loop never joins the same two nodes twice, in either
      orientation. */
  lemma LinksJoinDistinctPairs(ns: seq<Node>, mx: real, my: real, isDark: bool)
    ensures var l := Links(ns, |ns|, mx, my, isDark);
      forall p, q :: 0 <= p < q < |l| && l[p].Edge? && l[q].Edge? ==>
        !(l[p].i == l[q].i && l[p].j == l[q].j) && !(l[p].i == l[q].j && l[p].j == l[q].i)
  {
    var l := Links(ns, |ns|, mx, my, isDark);
    LinksInLoopOrder(ns, |ns|, mx, my, isDark);
    LinksWellFormed(ns, |ns|, mx, my, isDark);
    forall p, q | 0 <= p < q < |l| && l[p].Edge? && l[q].Edge?
      ensures !(l[p].i == l[q].i && l[p].j == l[q].j) && !(l[p].i == l[q].j && l[p].j == l[q].i)
    {
      assert l[p] in l && l[q] in l;
      assert Earlier(l[p], l[q], |ns|);
    }
  }

  /** No two edges of a frame join the same two nodes. */
  lemma EdgesUnique(ns: seq<Node>, width: nat, height: nat, mx: real, my: real, isDark: bool)
    ensures var f := Frame(ns, width, height, mx, my, isDark);
      forall p, q :: 0 <= p < q < |f| && f[p].Edge? && f[q].Edge? ==>
        !(f[p].i == f[q].i && f[p].j == f[q].j) && !(f[p].i == f[q].j && f[p].j == f[q].i)
  {
    var l := Links(ns, |ns|, mx, my, isDark);
    var f := Frame(ns, width, height, mx, my, isDark);
    LinksJoinDistinctPairs(ns, mx, my, isDark);
    FrameLayout(ns, width, height, mx, my, isDark);
    forall p, q | 0 <= p < q < |f| && f[p].Edge? && f[q].Edge?
      ensures !(f[p].i == f[q].i && f[p].j == f[q].j) && !(f[p].i == f[q].j && f[p].j == f[q].i)
    {
      assert 1 <= p && q <= |l|;
      assert f[p] == l[p - 1] && f[q] == l[q - 1];
    }
  }

  // ---------------------------------------------------------------------
  // Motion

  function Min(a: real, b: real): (m: real) { if a <= b then a else b }

  function Max(a: real, b: real): (m: real) { if a >= b then a else b }

  /** The stepped coordinate has left `[0, dim]`. */
  predicate Outside(v: real, dim: nat) { v < 0.0 || v > dim as real }

  /** One step of one node: move by its velocity, reverse each velocity
      component whose stepped coordinate left the canvas, then clamp the
      position into the canvas. */
  function StepNode(n: Node, width: nat, height: nat): (r: Node)
    ensures 0.0 <= r.x <= width as real && 0.0 <= r.y <= height as real
    ensures !Outside(n.x + n.vx, width) ==> r.x == n.x + n.vx && r.vx == n.vx
    ensures !Outside(n.y + n.vy, height) ==> r.y == n.y + n.vy && r.vy == n.vy
    ensures n.x + n.vx < 0.0 ==> r.x == 0.0 && r.vx == -n.vx
    ensures n.x + n.vx > width as real ==> r.x == width as real && r.vx == -n.vx
    ensures n.y + n.vy < 0.0 ==> r.y == 0.0 && r.vy == -n.vy
    ensures n.y + n.vy > height as real ==> r.y == height as real && r.vy == -n.vy
    ensures r.radius == n.radius
  {
    var x := n.x + n.vx;
    var y := n.y + n.vy;
    var vx := if Outside(x, width) then -n.vx else n.vx;
    var vy := if Outside(y, height) then -n.vy else n.vy;
    Node(Max(0.0, Min(width as real, x)), Max(0.0, Min(height as real, y)), vx, vy, n.radius)
  }

  /** Every node of the field stepped once. */
  function Moved(ns: seq<Node>, width: nat, height: nat): (ms: seq<Node>)
  {
    seq(|ns|, k requires 0 <= k < |ns| => StepNode(ns[k], width, height))
  }

  predicate Inside(n: Node, width: nat, height: nat)
  {
    0.0 <= n.x <= width as real && 0.0 <= n.y <= height as real
  }

  /** The motion update keeps the node count and every radius, and leaves
      every node inside `[0, width] x [0, height]` whatever its prior
      position. */
  lemma MotionFacts(ns: seq<Node>, width: nat, height: nat)
    ensures |Moved(ns, width, height)| == |ns|
    ensures forall k :: 0 <= k < |ns| ==>
              Inside(Moved(ns, width, height)[k], width, height) &&
              Moved(ns, width, height)[k].radius == ns[k].radius
  {
  }

  /** A node at x = 0 moving left at 0.3 px per frame is held at 0 and
      turns right. */
  lemma BounceAtLeftEdge(width: nat, height: nat, y: real, vy: real, r: real)
    ensures StepNode(Node(0.0, y, -0.3, vy, r), width, height).x == 0.0
    ensures StepNode(Node(0.0, y, -0.3, vy, r), width, height).vx == 0.3
  {
  }

  // ---------------------------------------------------------------------
  // The component

  /** The canvas component: its size, the theme its current effect run was
      set up for, the node field and the last pointer position. */
  class Canvas {
    var width: nat
    var height: nat
    var theme: string
    var nodes: array<Node>
    var mouseX: real
    var mouseY: real

    /** Every node lies inside the canvas. */
    ghost predicate InBounds()
      reads this, nodes
    {
      forall k :: 0 <= k < nodes.Length ==> Inside(nodes[k], width, height)
    }

    /** Mounting: the pointer starts at the origin and the first effect run
        sizes the canvas and seeds the field. */
    constructor (theme: string, offsetWidth: nat, offsetHeight: nat, rs: seq<real>)
      requires DrawsPerNode * NodeCount(offsetWidth, offsetHeight) <= |rs|
      ensures this.theme == theme && width == offsetWidth && height == offsetHeight
      ensures mouseX == 0.0 && mouseY == 0.0
      ensures fresh(nodes) && nodes[..] == Spawned(width, height, rs)
      ensures UnitRandoms(rs) ==> InBounds()
    {
      this.theme := theme;
      mouseX, mouseY := 0.0, 0.0;
      width, height := 0, 0;
      nodes := new Node[0];
      new;
      ResizeCanvas(offsetWidth, offsetHeight, rs);
    }

    /** `initNodes`: discard the field and seed a new one. */
    method InitNodes(rs: seq<real>)
      requires DrawsPerNode * NodeCount(width, height) <= |rs|
      modifies this
      ensures width == old(width) && height == old(height) && theme == old(theme)
      ensures mouseX == old(mouseX) && mouseY == old(mouseY)
      ensures fresh(nodes) && nodes[..] == Spawned(width, height, rs)
      ensures UnitRandoms(rs) ==> InBounds()
    {
      var count := NodeCount(width, height);
      var field := new Node[count];
      nodes := field;
      for i := 0 to count
        modifies field
        invariant nodes == field
        invariant forall m :: 0 <= m < i ==> field[m] == SpawnNode(width, height, rs, m)
      {
        field[i] := SpawnNode(width, height, rs, i);
      }
      assert nodes[..] == Spawned(width, height, rs);
      if UnitRandoms(rs) {
        SpawnedFacts(width, height, rs);
      }
    }

    /** `resizeCanvas`: take the element's size and reseed the field. */
    method ResizeCanvas(offsetWidth: nat, offsetHeight: nat, rs: seq<real>)
      requires DrawsPerNode * NodeCount(offsetWidth, offsetHeight) <= |rs|
      modifies this
      ensures width == offsetWidth && height == offsetHeight
      ensures fresh(nodes) && nodes[..] == Spawned(width, height, rs)
      ensures UnitRandoms(rs) ==> InBounds()
      ensures theme == old(theme) && mouseX == old(mouseX) && mouseY == old(mouseY)
    {
      width, height := offsetWidth, offsetHeight;
      InitNodes(rs);
    }

    /** A render with the given theme. The effect depends on the theme
        alone: a changed theme re-runs it, which resizes the canvas and so
        reseeds the field; the same theme does not, and nothing changes.
        The pointer position survives either way. */
    method ChangeTheme(newTheme: string, offsetWidth: nat, offsetHeight: nat, rs: seq<real>)
      requires newTheme != theme ==> DrawsPerNode * NodeCount(offsetWidth, offsetHeight) <= |rs|
      modifies this
      ensures theme == newTheme
      ensures mouseX == old(mouseX) && mouseY == old(mouseY)
      ensures newTheme != old(theme) ==>
                && width == offsetWidth && height == offsetHeight
                && fresh(nodes) && nodes[..] == Spawned(width, height, rs)
      ensures newTheme != old(theme) && UnitRandoms(rs) ==> InBounds()
      ensures newTheme == old(theme) ==>
                && width == old(width) && height == old(height)
                && nodes == old(nodes) && nodes[..] == old(nodes[..])
      ensures newTheme == old(theme) && old(InBounds()) ==> InBounds()
    {
      if newTheme != theme {
        theme := newTheme;
        ResizeCanvas(offsetWidth, offsetHeight, rs);
      }
    }

    /** `handleMouseMove`: store the pointer relative to the canvas, without
        any bounds check. */
    method HandleMouseMove(clientX: real, clientY: real, rectLeft: real, rectTop: real)
      modifies this`mouseX, this`mouseY
      ensures mouseX == clientX - rectLeft && mouseY == clientY - rectTop
    {
      mouseX := clientX - rectLeft;
      mouseY := clientY - rectTop;
    }

    /** The connection loop of `drawNetwork` for row `i`: the edges from
        node `i` to every later node closer than 100. */
    method PairRow(i: nat) returns (row: seq<Prim>)
      requires i < nodes.Length
      ensures row == PairEdges(nodes[..], i, nodes.Length, LineColor(IsDark(theme)))
    {
      var lineColor := LineColor(IsDark(theme));
      row := [];
      var j := i + 1;
      while j < nodes.Length
        invariant i + 1 <= j <= nodes.Length
        invariant row == PairEdges(nodes[..], i, j, lineColor)
      {
        if SquaredDistance(nodes[i].x, nodes[i].y, nodes[j].x, nodes[j].y) < EdgeDistance * EdgeDistance {
          row := row + [Edge(i, j, nodes[i].x, nodes[i].y, nodes[j].x, nodes[j].y, lineColor, 1)];
        }
        j := j + 1;
      }
    }

    /** The connection loops of `drawNetwork`: for each node in turn, its
        edges to later nodes and then its link to the pointer. */
    method Connections() returns (lines: seq<Prim>)
      ensures lines == Links(nodes[..], nodes.Length, mouseX, mouseY, IsDark(theme))
    {
      var linkColor := LinkColor(IsDark(theme));
      lines := [];
      var i := 0;
      ghost var ns := nodes[..];
      while i < nodes.Length
        invariant 0 <= i <= nodes.Length
        invariant lines == Links(ns, i, mouseX, mouseY, IsDark(theme))
      {
        var row := PairRow(i);
        assert Links(ns, i + 1, mouseX, mouseY, IsDark(theme))
          == lines + row + PointerLink(ns, i, mouseX, mouseY, linkColor);
        lines := lines + row;
        if SquaredDistance(nodes[i].x, nodes[i].y, mouseX, mouseY) < MouseDistance * MouseDistance {
          lines := lines + [MouseLink(i, nodes[i].x, nodes[i].y, mouseX, mouseY, linkColor, 2)];
        }
        i := i + 1;
      }
    }

    /** `drawNetwork`: one animation frame.  The draw list is computed from
        the positions at the start of the frame; afterwards every node has
        been stepped once and lies inside the canvas. */
    method DrawNetwork() returns (frame: seq<Prim>)
      modifies nodes
      ensures frame == Frame(old(nodes[..]), width, height, mouseX, mouseY, IsDark(theme))
      ensures nodes[..] == Moved(old(nodes[..]), width, height)
      ensures InBounds()
    {
      ghost var ns := nodes[..];
      var nodeColor := NodeColor(IsDark(theme));
      var lines := Connections();
      frame := [Clear(width, height)] + lines;

      var k := 0;
      while k < nodes.Length
        invariant 0 <= k <= nodes.Length
        invariant frame == [Clear(width, height)] + lines + Circles(ns, k, nodeColor)
        invariant forall m :: 0 <= m < k ==> nodes[m] == StepNode(ns[m], width, height)
        invariant forall m :: k <= m < nodes.Length ==> nodes[m] == ns[m]
      {
        var node := nodes[k];
        frame := frame + [Circle(node.x, node.y, node.radius, nodeColor)];
        var x := node.x + node.vx;
        var y := node.y + node.vy;
        var vx, vy := node.vx, node.vy;
        if x < 0.0 || x > width as real { vx := -vx; }
        if y < 0.0 || y > height as real { vy := -vy; }
        x := Max(0.0, Min(width as real, x));
        y := Max(0.0, Min(height as real, y));
        nodes[k] := Node(x, y, vx, vy, node.radius);
        k := k + 1;
      }
      assert nodes[..] == Moved(ns, width, height);
    }
  }
}
