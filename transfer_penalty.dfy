/**
 * The transfer-penalty costing of testing.py: `add_edges_with_penalty`
 * builds a graph whose segments all take one minute, and
 * `shortest_path_with_transfer_penalty` prices a path as the sum of its edge
 * weights plus a penalty each time the rider boards or changes line.
 *
 * The path itself comes from `networkx.shortest_path`, which is not part of
 * this model: it is a parameter here.
 */
module TransferPenalty {
  import opened Outcomes
  import opened Transit

  /** The penalty for boarding `line`: 3 for U4 and U6, 10 for S50, none otherwise. */
  function Penalty(line: string): (p: nat)
    ensures p <= 10
    ensures p > 0 <==> line in {"U4", "U6", "S50"}
    ensures line == "U4" || line == "U6" ==> p == 3
    ensures line == "S50" ==> p == 10
  {
    if line == "U4" || line == "U6" then 3
    else if line == "S50" then 10
    else 0
  }

  /**
   * The loop of `shortest_path_with_transfer_penalty` from position 0 of
   * `path`, with `prev` the line of the edge ridden before. A missing edge
   * makes `get_edge_data` return None, and subscripting it raises TypeError.
   */
  function CostAlong(g: GraphView, path: seq<string>, prev: Option<string>): (r: Result<int>)
    ensures r.Err? ==> r.error == TypeError
    ensures |path| < 2 ==> r == Ok(0)
    decreases |path|
  {
    if |path| < 2 then Ok(0)
    else if {path[0], path[1]} !in g.edges then Err(TypeError)
    else
      var e := g.edges[{path[0], path[1]}];
      var step := e.weight + (if prev != Some(e.line) then Penalty(e.line) else 0);
      match CostAlong(g, path[1..], Some(e.line))
      case Ok(c) => Ok(step + c)
      case Err(x) => Err(x)
  }

  // ---------------------------------------------------------------------
  // An independent description of the same cost: the edges along the path,
  // their total weight, and the penalties at boardings and line changes.

  /** The edge data along `path`, or None if some consecutive pair is not an edge. */
  function EdgesAlong(g: GraphView, path: seq<string>): (r: Option<seq<EdgeData>>)
    ensures r.Some? ==> |r.value| == if |path| < 2 then 0 else |path| - 1
    decreases |path|
  {
    if |path| < 2 then Some([])
    else if {path[0], path[1]} !in g.edges then None
    else
      match EdgesAlong(g, path[1..])
      case None => None
      case Some(rest) => Some([g.edges[{path[0], path[1]}]] + rest)
  }

  /** The sum of the edge weights. */
  function TotalWeight(es: seq<EdgeData>): int {
    if es == [] then 0 else es[0].weight + TotalWeight(es[1..])
  }

  /** The penalties along `es`: one whenever an edge's line differs from the line ridden before. */
  function Penalties(es: seq<EdgeData>, prev: Option<string>): nat {
    if es == [] then 0
    else (if prev != Some(es[0].line) then Penalty(es[0].line) else 0) + Penalties(es[1..], Some(es[0].line))
  }

  /** Sum of edge weights plus the boarding and transfer penalties. */
  function PathCost(es: seq<EdgeData>): int {
    TotalWeight(es) + Penalties(es, None)
  }

  /**
   * The loop's cost is the independent one: it exists exactly when every
   * consecutive pair of the path is an edge, and then equals the total
   * weight plus the penalties.
   */
  lemma {:induction false} CostAlongIsWeightPlusPenalties(g: GraphView, path: seq<string>, prev: Option<string>)
    ensures CostAlong(g, path, prev).Ok? <==> EdgesAlong(g, path).Some?
    ensures CostAlong(g, path, prev).Err? ==> CostAlong(g, path, prev).error == TypeError
    ensures CostAlong(g, path, prev).Ok? ==>
      CostAlong(g, path, prev).value == TotalWeight(EdgesAlong(g, path).value) + Penalties(EdgesAlong(g, path).value, prev)
    decreases |path|
  {
    if |path| >= 2 && {path[0], path[1]} in g.edges {
      var e := g.edges[{path[0], path[1]}];
      CostAlongIsWeightPlusPenalties(g, path[1..], Some(e.line));
      if EdgesAlong(g, path[1..]).Some? {
        var rest := EdgesAlong(g, path[1..]).value;
        assert ([e] + rest)[1..] == rest;
      }
    }
  }

  /** Penalties never exceed the largest penalty per edge; the first edge is always charged. */
  lemma {:induction false} PenaltiesBounds(es: seq<EdgeData>, prev: Option<string>)
    ensures Penalties(es, prev) <= 10 * |es|
    ensures es != [] && prev == None ==> Penalties(es, prev) >= Penalty(es[0].line)
    decreases |es|
  {
    if es != [] {
      PenaltiesBounds(es[1..], Some(es[0].line));
    }
  }

  /** Riding one line throughout costs its weights plus a single boarding penalty. */
  lemma {:induction false} SingleLineBoardsOnce(es: seq<EdgeData>, line: string, prev: Option<string>)
    requires es != []
    requires forall i :: 0 <= i < |es| ==> es[i].line == line
    ensures Penalties(es, prev) == if prev == Some(line) then 0 else Penalty(line)
    decreases |es|
  {
    if |es| > 1 {
      SingleLineBoardsOnce(es[1..], line, Some(line));
    }
  }

  /** The line ridden after `es`, starting from `prev`. */
  function LastLine(es: seq<EdgeData>, prev: Option<string>): Option<string> {
    if es == [] then prev else Some(es[|es| - 1].line)
  }

  /**
   * Splitting a ride: the second part is charged as if boarded from the last
   * line of the first, so a change is charged once, at the boundary.
   */
  lemma {:induction false} PenaltiesSplit(a: seq<EdgeData>, b: seq<EdgeData>, prev: Option<string>)
    ensures Penalties(a + b, prev) == Penalties(a, prev) + Penalties(b, LastLine(a, prev))
    decreases |a|
  {
    if a != [] {
      assert (a + b)[0] == a[0] && (a + b)[1..] == a[1..] + b;
      PenaltiesSplit(a[1..], b, Some(a[0].line));
      if |a| > 1 {
        assert a[1..][|a[1..]| - 1] == a[|a| - 1];
      }
    } else {
      assert a + b == b;
    }
  }

  /** `shortest_path_with_transfer_penalty(graph, source, target)`, given the path networkx returned. */
  method ShortestPathWithTransferPenalty(graph: TransitGraph, path: seq<string>)
    returns (r: Result<(seq<string>, int)>)
    ensures EdgesAlong(graph.View(), path).None? ==> r == Err(TypeError)
    ensures EdgesAlong(graph.View(), path).Some? ==>
      r == Ok((path, PathCost(EdgesAlong(graph.View(), path).value)))
  {
    var totalTime := 0;
    var prevLine: Option<string> := None;
    var i := 0;
    while i + 1 < |path|
      invariant i <= |path|
      invariant CostAlong(graph.View(), path, None) ==
        match CostAlong(graph.View(), path[i..], prevLine)
        case Ok(c) => Ok(totalTime + c)
        case Err(x) => Err(x)
    {
      var edgeData := graph.GetEdgeData(path[i], path[i + 1]);
      if edgeData.None? {
        assert {path[i], path[i + 1]} == {path[i + 1], path[i]};
        assert path[i..][0] == path[i] && path[i..][1] == path[i + 1];
        CostAlongIsWeightPlusPenalties(graph.View(), path, None);
        return Err(TypeError);
      }
      assert {path[i], path[i + 1]} == {path[i + 1], path[i]};
      assert path[i..][1..] == path[i + 1..];
      var travelTime := edgeData.value.weight;
      var currentLine := edgeData.value.line;
      if prevLine != Some(currentLine) {
        travelTime := travelTime + Penalty(currentLine);
      }
      totalTime := totalTime + travelTime;
      prevLine := Some(currentLine);
      i := i + 1;
    }
    CostAlongIsWeightPlusPenalties(graph.View(), path, None);
    return Ok((path, totalTime));
  }

  /**
   * `add_edges_with_penalty(graph, stations, line, penalty)`: one edge of
   * weight 1 per consecutive pair; `penalty` is accepted and ignored.
   */
  method AddEdgesWithPenalty(graph: TransitGraph, stations: seq<string>, line: string, penalty: int)
    requires graph.Valid()
    modifies graph
    ensures graph.Valid()
    ensures graph.View() == AddPath(old(graph.View()), stations, EdgeData(line, 1))
  {
    var e := EdgeData(line, 1);
    var i := 0;
    while i + 1 < |stations|
      invariant i <= |stations|
      invariant graph.Valid()
      invariant AddPath(graph.View(), stations[i..], e) == AddPath(old(graph.View()), stations, e)
    {
      assert stations[i..][1..] == stations[i + 1..];
      graph.AddEdge(stations[i], stations[i + 1], e);
      i := i + 1;
    }
  }
}
