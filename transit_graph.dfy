/**
 * The transit graph of TransitGraph.py: an undirected networkx graph whose
 * edges carry the serving `line` and a `weight`, grown by `add_lines`.
 *
 * An undirected edge is keyed by the set of its two endpoints, so the key of
 * (u, v) and of (v, u) is the same value and a graph can never hold two
 * edges between one pair of stations.
 */
module Transit {
  import opened Outcomes

  /** The attributes `add_lines` stores on an edge. */
  datatype EdgeData = EdgeData(line: string, weight: int)

  /** The unordered endpoint pair {u, v} of an edge ({u} for a self-loop). */
  type EdgeKey = set<string>

  /** The value of a graph: its stations and its edges with their attributes. */
  datatype GraphView = GraphView(nodes: set<string>, edges: map<EdgeKey, EdgeData>)

  /** Every edge joins stations of the graph. */
  ghost predicate WellFormed(g: GraphView) {
    forall k | k in g.edges :: k <= g.nodes
  }

  /** networkx `add_edge(u, v, **attrs)`: adds missing endpoints and sets the one edge's data. */
  function WithEdge(g: GraphView, u: string, v: string, e: EdgeData): (r: GraphView)
    ensures r.nodes == g.nodes + {u, v}
    ensures {u, v} in r.edges && {v, u} in r.edges && r.edges[{v, u}] == e
    ensures forall k | k in r.edges :: k == {u, v} || k in g.edges
    ensures forall k | k in g.edges && k != {u, v} :: k in r.edges && r.edges[k] == g.edges[k]
  {
    assert {v, u} == {u, v};
    GraphView(g.nodes + {u, v}, g.edges[{u, v} := e])
  }

  /** networkx `remove_node(v)`: drops the station and every edge touching it. */
  function WithoutNode(g: GraphView, v: string): (r: GraphView)
    ensures r.nodes == g.nodes - {v}
    ensures forall k | k in r.edges :: v !in k && k in g.edges && r.edges[k] == g.edges[k]
    ensures forall k | k in g.edges && v !in k :: k in r.edges
    ensures WellFormed(g) ==> WellFormed(r)
  {
    GraphView(g.nodes - {v}, map k | k in g.edges && v !in k :: g.edges[k])
  }

  /**
   * The loop of `add_lines`: one `add_edge` per consecutive pair of `s`,
   * first pair first.
   */
  function AddPath(g: GraphView, s: seq<string>, e: EdgeData): (r: GraphView)
    ensures g.nodes <= r.nodes
    ensures g.edges.Keys <= r.edges.Keys
    decreases |s|
  {
    if |s| < 2 then g else AddPath(WithEdge(g, s[0], s[1], e), s[1..], e)
  }

  /** The stations a call adds: all of them, unless there is no pair at all. */
  function PathNodes(s: seq<string>): set<string> {
    if |s| < 2 then {} else set x | x in s
  }

  /** The key of the pair (s[i], s[i + 1]). */
  function PairAt(s: seq<string>, i: nat): EdgeKey
    requires i + 1 < |s|
  {
    {s[i], s[i + 1]}
  }

  /** The keys of the consecutive pairs of `s`. */
  function PathKeys(s: seq<string>): set<EdgeKey> {
    set i | 0 <= i < |s| - 1 :: PairAt(s, i)
  }

  /** The pairs of `s` are its first pair and the pairs of its tail. */
  lemma PathKeysCons(s: seq<string>)
    requires |s| >= 2
    ensures PathKeys(s) == {{s[0], s[1]}} + PathKeys(s[1..])
  {
    var t := s[1..];
    forall k | k in PathKeys(s) ensures k in {{s[0], s[1]}} + PathKeys(t) {
      var i :| 0 <= i < |s| - 1 && k == PairAt(s, i);
      if i > 0 { assert k == PairAt(t, i - 1); }
    }
    forall k | k in PathKeys(t) ensures k in PathKeys(s) {
      var i :| 0 <= i < |t| - 1 && k == PairAt(t, i);
      assert k == PairAt(s, i + 1);
    }
    assert PairAt(s, 0) in PathKeys(s);
  }

  /** The stations of `s` are its first pair and the stations of its tail. */
  lemma PathNodesCons(s: seq<string>)
    requires |s| >= 2
    ensures PathNodes(s) == {s[0], s[1]} + PathNodes(s[1..])
  {
    var t := s[1..];
    if |t| >= 2 {
      forall x | x in s ensures x in {s[0]} + PathNodes(t) {
        var i :| 0 <= i < |s| && s[i] == x;
        if i > 0 { assert t[i - 1] == x; }
      }
    } else {
      assert s == [s[0], s[1]];
    }
  }

  /** Closed form of AddPath: union of the nodes, and every consecutive pair overwritten with `e`. */
  lemma {:induction false} AddPathClosedForm(g: GraphView, s: seq<string>, e: EdgeData)
    ensures AddPath(g, s, e).nodes == g.nodes + PathNodes(s)
    ensures AddPath(g, s, e).edges.Keys == g.edges.Keys + PathKeys(s)
    ensures forall k | k in PathKeys(s) :: AddPath(g, s, e).edges[k] == e
    ensures forall k | k in g.edges && k !in PathKeys(s) :: AddPath(g, s, e).edges[k] == g.edges[k]
    decreases |s|
  {
    if |s| < 2 {
      assert PathKeys(s) == {};
    } else {
      var g' := WithEdge(g, s[0], s[1], e);
      var t := s[1..];
      AddPathClosedForm(g', t, e);
      PathKeysCons(s);
      PathNodesCons(s);
    }
  }

  /** After AddPath every consecutive pair of `s` is an edge carrying `e`, in either orientation. */
  lemma ConsecutivePairsAreEdges(g: GraphView, s: seq<string>, e: EdgeData, i: nat)
    requires i + 1 < |s|
    ensures {s[i], s[i + 1]} in AddPath(g, s, e).edges && {s[i + 1], s[i]} in AddPath(g, s, e).edges
    ensures AddPath(g, s, e).edges[{s[i + 1], s[i]}] == e
    ensures s[i] in AddPath(g, s, e).nodes && s[i + 1] in AddPath(g, s, e).nodes
  {
    AddPathClosedForm(g, s, e);
    assert PairAt(s, i) in PathKeys(s);
    assert {s[i + 1], s[i]} == PairAt(s, i);
  }

  /** Edges that are not a consecutive pair of `s` keep their presence and their data. */
  lemma OtherEdgesUntouched(g: GraphView, s: seq<string>, e: EdgeData, k: EdgeKey)
    requires k !in PathKeys(s)
    ensures k in AddPath(g, s, e).edges <==> k in g.edges
    ensures k in g.edges ==> AddPath(g, s, e).edges[k] == g.edges[k]
  {
    AddPathClosedForm(g, s, e);
  }

  /** A station list with fewer than two names adds nothing. */
  lemma ShortListAddsNothing(g: GraphView, s: seq<string>, e: EdgeData)
    requires |s| < 2
    ensures AddPath(g, s, e) == g
  {
  }

  /** AddPath keeps every edge between stations of the graph. */
  lemma AddPathWellFormed(g: GraphView, s: seq<string>, e: EdgeData)
    requires WellFormed(g)
    ensures WellFormed(AddPath(g, s, e))
  {
    AddPathClosedForm(g, s, e);
    var r := AddPath(g, s, e);
    forall k | k in r.edges ensures k <= r.nodes {
      if k in PathKeys(s) {
        var i :| 0 <= i < |s| - 1 && k == PairAt(s, i);
        assert s[i] in s && s[i + 1] in s;
      }
    }
  }

  /**
   * Re-adding a pair, in the other order and with other data, overwrites the
   * one edge (last write wins) and creates no second edge.
   */
  lemma ReAddOverwrites(g: GraphView, u: string, v: string, e1: EdgeData, e2: EdgeData)
    ensures AddPath(AddPath(g, [u, v], e1), [v, u], e2) == AddPath(g, [u, v], e2)
    ensures AddPath(AddPath(g, [u, v], e1), [v, u], e2).edges.Keys == g.edges.Keys + {{u, v}}
  {
    assert [u, v][1..] == [v] && [v, u][1..] == [u];
    assert {v, u} == {u, v};
    assert g.nodes + {u, v} + {v, u} == g.nodes + {u, v};
    assert g.edges[{u, v} := e1][{v, u} := e2] == g.edges[{u, v} := e2];
  }

  // ---------------------------------------------------------------------
  // Line classification (the `match` at the head of `add_lines`).

  /** `TransitGraph.travel_times`: the per-segment time of each mode. */
  const TravelTimes: map<string, int> :=
    map["tram" := 2, "trolley" := 2, "metro" := 2, "commuter" := 2]

  /** Python `str.isdigit` restricted to ASCII digits: non-empty and all digits. */
  predicate IsDigits(s: string) {
    |s| > 0 && forall i :: 0 <= i < |s| ==> '0' <= s[i] <= '9'
  }

  /** A name the `match` classifies without a custom type. */
  predicate Classifiable(lineName: string) {
    |lineName| > 0 && (lineName[0] == 'U' || lineName[0] == 'S' || IsDigits(lineName))
  }

  /**
   * The mode the `match` picks: `U` first, then `S`, then all digits.
   * `line_name[0]` raises IndexError on an empty name; any other name raises ValueError.
   */
  function ModeOf(lineName: string): (r: Result<string>)
    ensures r.Ok? <==> Classifiable(lineName)
    ensures r.Ok? ==> r.value in TravelTimes
    ensures |lineName| > 0 && lineName[0] == 'U' ==> r == Ok("metro")
    ensures |lineName| > 0 && lineName[0] == 'S' ==> r == Ok("commuter")
    ensures |lineName| > 0 && lineName[0] != 'U' && lineName[0] != 'S' && IsDigits(lineName) ==> r == Ok("tram")
    ensures r.Err? ==> r.error == (if lineName == [] then IndexError else ValueError)
  {
    if |lineName| == 0 then Err(IndexError)
    else if lineName[0] == 'U' then Ok("metro")
    else if lineName[0] == 'S' then Ok("commuter")
    else if IsDigits(lineName) then Ok("tram")
    else Err(ValueError)
  }

  /**
   * The edge weight `add_lines` uses: `travel_times[custom_type]` when a
   * custom type is given (KeyError if it is unknown), the classified mode's
   * time otherwise.
   */
  function TransitTime(lineName: string, customType: Option<string>): (r: Result<int>)
    ensures customType.None? ==> (r.Ok? <==> Classifiable(lineName))
    ensures customType.Some? ==> (r.Ok? <==> customType.value in TravelTimes)
    ensures customType.Some? && r.Err? ==> r.error == KeyError
    ensures r.Ok? ==> r.value == 2
  {
    match customType
    case Some(t) => if t in TravelTimes then Ok(TravelTimes[t]) else Err(KeyError)
    case None =>
      var mode := ModeOf(lineName);
      if mode.Ok? then Ok(TravelTimes[mode.value]) else Err(mode.error)
  }

  /** The first character decides before the digit test: "U1" is metro, "S45" commuter, "18" tram. */
  lemma {:induction false} DigitNamesAreTram(lineName: string)
    requires IsDigits(lineName)
    ensures ModeOf(lineName) == Ok("tram")
  {
    assert '0' <= lineName[0] <= '9';
  }

  // ---------------------------------------------------------------------
  // The graph object.

  /** `TransitGraph(networkx.Graph)`: stations and edges updated in place. */
  class TransitGraph {
    var nodes: set<string>
    var edges: map<EdgeKey, EdgeData>

    ghost predicate Valid()
      reads this
    {
      WellFormed(View())
    }

    function View(): GraphView
      reads this
    {
      GraphView(nodes, edges)
    }

    /** `TransitGraph()`: an empty graph. */
    constructor ()
      ensures Valid() && View() == GraphView({}, map[])
    {
      nodes := {};
      edges := map[];
    }

    /** networkx `has_node`. */
    function HasNode(v: string): (b: bool)
      reads this
      ensures b <==> v in View().nodes
      ensures Valid() ==> forall w :: HasEdge(v, w) ==> b
    {
      v in nodes
    }

    /** networkx `has_edge`: symmetric because the key is the unordered pair. */
    function HasEdge(u: string, v: string): (b: bool)
      reads this
      ensures b <==> {v, u} in edges
    {
      assert {u, v} == {v, u};
      {u, v} in edges
    }

    /** networkx `get_edge_data(u, v)`: the data dictionary, or None without an edge. */
    function GetEdgeData(u: string, v: string): (r: Option<EdgeData>)
      reads this
      ensures r.Some? <==> HasEdge(v, u)
      ensures r.Some? ==> r.value == edges[{v, u}]
    {
      assert {u, v} == {v, u};
      if {u, v} in edges then Some(edges[{u, v}]) else None
    }

    /** networkx `add_edge(u, v, line=…, weight=…)`. */
    method AddEdge(u: string, v: string, e: EdgeData)
      requires Valid()
      modifies this
      ensures Valid()
      ensures View() == WithEdge(old(View()), u, v, e)
    {
      nodes := nodes + {u, v};
      edges := edges[{u, v} := e];
    }

    /** networkx `remove_node(v)`; it raises NetworkXError for an absent station. */
    method RemoveNode(v: string) returns (s: Status)
      requires Valid()
      modifies this
      ensures Valid()
      ensures old(v in nodes) ==> s == Done && View() == WithoutNode(old(View()), v)
      ensures old(v !in nodes) ==> s == Raised(GraphError) && View() == old(View())
      ensures v !in nodes && forall k | k in edges :: v !in k
    {
      if v !in nodes {
        return Raised(GraphError);
      }
      nodes := nodes - {v};
      edges := map k | k in edges && v !in k :: edges[k];
      s := Done;
    }

    /**
     * `add_lines(line_name, stations, custom_type)`: classify the line, then
     * add one edge per consecutive pair of stations. On a classification
     * error nothing changes.
     */
    method AddLines(lineName: string, stations: seq<string>, customType: Option<string>)
      returns (s: Status)
      requires Valid()
      modifies this
      ensures Valid()
      ensures TransitTime(lineName, customType).Err? ==>
        s == Raised(TransitTime(lineName, customType).error) && View() == old(View())
      ensures TransitTime(lineName, customType).Ok? ==>
        s == Done &&
        View() == AddPath(old(View()), stations, EdgeData(lineName, TransitTime(lineName, customType).value))
    {
      var time := TransitTime(lineName, customType);
      if time.Err? {
        return Raised(time.error);
      }
      var e := EdgeData(lineName, time.value);
      var i := 0;
      while i + 1 < |stations|
        invariant i <= |stations|
        invariant Valid()
        invariant AddPath(View(), stations[i..], e) == AddPath(old(View()), stations, e)
      {
        assert stations[i..][1..] == stations[i + 1..];
        AddEdge(stations[i], stations[i + 1], e);
        i := i + 1;
      }
      s := Done;
    }
  }
}
