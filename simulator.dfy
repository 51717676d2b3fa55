/**
 * The `Simulator` of Simulator.py: a population of journeys over a transit
 * graph, and the replay of those journeys after one station closes.
 *
 * Two collaborators are parameters here. The router stands for
 * `TransitGraph.fastest_path`: given the current graph and two stations it
 * yields the route, or None where networkx raises NetworkXNoPath. The random
 * draws of `random.sample(self.stations, k=2)` are a given sequence of
 * (origin, target) pairs, one per journey.
 */
module Simulation {
  import opened Outcomes
  import opened Transit
  import opened Sequences

  /** What `fastest_path` returns: the lines, the total time and the stations of the route. */
  datatype Route = Route(lines: seq<string>, time: int, stations: seq<string>)

  /**
   * A journey record. `baseline` holds the `lines`/`time`/`stations` keys;
   * `rerouted` holds the `lines_new`/`time_new`/`stations_new` keys, present
   * only once a disruption found a route.
   */
  datatype Journey = Journey(origin: string, target: string, baseline: Route, rerouted: Option<Route>)

  /** `fastest_path(origin, target)` on the graph as it is; None stands for NetworkXNoPath. */
  type Router = (GraphView, string, string) -> Option<Route>

  /** `random.sample(stations, k=2)`: the names at two different positions of the list. */
  ghost predicate IsSample(pick: (string, string), stations: seq<string>) {
    exists i, j :: 0 <= i < |stations| && 0 <= j < |stations| && i != j && stations[i] == pick.0 && stations[j] == pick.1
  }

  /** Every name of the list occurs once (true of `list(self.net.nodes)`). */
  ghost predicate Distinct(stations: seq<string>) {
    forall i, j :: 0 <= i < j < |stations| ==> stations[i] != stations[j]
  }

  /** The journeys the generation loop appends, and the error that stopped it, if any. */
  datatype Generated = Generated(added: seq<Journey>, error: Option<PyError>)

  /**
   * The body of the `generate_journeys` loop over the draws `picks`: each
   * draw is routed and appended; the first draw without a path raises
   * NetworkXNoPath, keeping what was appended before it.
   */
  function Generate(g: GraphView, picks: seq<(string, string)>, router: Router): (r: Generated)
    ensures |r.added| <= |picks|
    ensures r.error.Some? ==> r.error.value == NoPath
    ensures r.error.None? <==> |r.added| == |picks|
    decreases |picks|
  {
    if picks == [] then Generated([], None)
    else
      match router(g, picks[0].0, picks[0].1)
      case None => Generated([], Some(NoPath))
      case Some(route) =>
        var rest := Generate(g, picks[1..], router);
        Generated([Journey(picks[0].0, picks[0].1, route, None)] + rest.added, rest.error)
  }

  /** The journey a draw produces. */
  function JourneyFor(g: GraphView, pick: (string, string), router: Router): Journey
    requires router(g, pick.0, pick.1).Some?
  {
    Journey(pick.0, pick.1, router(g, pick.0, pick.1).value, None)
  }

  /**
   * Generation appends one fresh journey per draw, in order, up to the first
   * draw without a path; it succeeds exactly when every draw has a route.
   */
  lemma {:induction false} GenerateShape(g: GraphView, picks: seq<(string, string)>, router: Router)
    ensures var gen := Generate(g, picks, router);
      && |gen.added| <= |picks|
      && (gen.error.None? <==> |gen.added| == |picks|)
      && (gen.error.Some? ==> gen.error.value == NoPath && router(g, picks[|gen.added|].0, picks[|gen.added|].1).None?)
      && forall i :: 0 <= i < |gen.added| ==>
           router(g, picks[i].0, picks[i].1).Some? && gen.added[i] == JourneyFor(g, picks[i], router)
    decreases |picks|
  {
    if picks != [] && router(g, picks[0].0, picks[0].1).Some? {
      GenerateShape(g, picks[1..], router);
      var rest := Generate(g, picks[1..], router);
      var gen := Generate(g, picks, router);
      forall i | 0 < i < |gen.added|
        ensures router(g, picks[i].0, picks[i].1).Some? && gen.added[i] == JourneyFor(g, picks[i], router)
      {
        assert gen.added[i] == rest.added[i - 1] && picks[1..][i - 1] == picks[i];
      }
    }
  }

  /** Drawn from a list without repeated names, every journey has different ends. */
  lemma SampledEndsDiffer(g: GraphView, picks: seq<(string, string)>, router: Router, stations: seq<string>)
    requires Distinct(stations)
    requires forall i :: 0 <= i < |picks| ==> IsSample(picks[i], stations)
    ensures forall i :: 0 <= i < |Generate(g, picks, router).added| ==>
      Generate(g, picks, router).added[i].origin != Generate(g, picks, router).added[i].target
      && Generate(g, picks, router).added[i].origin in stations
      && Generate(g, picks, router).added[i].target in stations
  {
    GenerateShape(g, picks, router);
    var added := Generate(g, picks, router).added;
    forall i | 0 <= i < |added|
      ensures added[i].origin != added[i].target && added[i].origin in stations && added[i].target in stations
    {
      assert IsSample(picks[i], stations);
      var a, b :| 0 <= a < |stations| && 0 <= b < |stations| && a != b && stations[a] == picks[i].0 && stations[b] == picks[i].1;
      if a < b { assert stations[a] != stations[b]; } else { assert stations[b] != stations[a]; }
    }
  }

  /** Generation from draw `k` routes that draw first, then goes on from draw `k + 1`. */
  lemma GenerateAt(g: GraphView, picks: seq<(string, string)>, k: nat, router: Router)
    requires k < |picks|
    ensures router(g, picks[k].0, picks[k].1).None? ==> Generate(g, picks[k..], router) == Generated([], Some(NoPath))
    ensures router(g, picks[k].0, picks[k].1).Some? ==>
      Generate(g, picks[k..], router) ==
        Generated([JourneyFor(g, picks[k], router)] + Generate(g, picks[k + 1..], router).added,
                  Generate(g, picks[k + 1..], router).error)
  {
    assert picks[k..][0] == picks[k] && picks[k..][1..] == picks[k + 1..];
  }

  /**
   * What `generate_journeys` does: with fewer than two stations the first
   * `sample` raises ValueError before anything is appended; otherwise the
   * loop appends and may stop with NoPath.
   */
  function GenerateOutcome(count: nat, stations: seq<string>, g: GraphView, picks: seq<(string, string)>, router: Router)
    : (r: (Status, seq<Journey>))
    ensures count > 0 && |stations| < 2 ==> r == (Raised(ValueError), [])
    ensures r.0 == Done || r.0 == Raised(ValueError) || r.0 == Raised(NoPath)
    ensures |r.1| <= |picks|
    ensures r.0 == Done ==> |r.1| == |picks|
    ensures !(count > 0 && |stations| < 2) ==>
      (r.0 == Done || r.0 == Raised(NoPath)) && r.1 == Generate(g, picks, router).added
  {
    if count > 0 && |stations| < 2 then (Raised(ValueError), [])
    else
      var gen := Generate(g, picks, router);
      (if gen.error.None? then Done else Raised(gen.error.value), gen.added)
  }

  /**
   * The re-route of one journey after `closed` was removed: a journey that
   * starts or ends there is skipped, as is one for which no path exists;
   * any other gets the `*_new` fields from the route found.
   */
  function Reroute(j: Journey, closed: string, g: GraphView, router: Router): (r: Journey)
    ensures r.origin == j.origin && r.target == j.target && r.baseline == j.baseline
    ensures closed == j.origin || closed == j.target ==> r == j
    ensures closed != j.origin && closed != j.target ==>
      r.rerouted == (if router(g, j.origin, j.target).Some? then router(g, j.origin, j.target) else j.rerouted)
  {
    if closed == j.origin || closed == j.target then j
    else
      match router(g, j.origin, j.target)
      case None => j
      case Some(route) => j.(rerouted := Some(route))
  }

  /** The replay loop of `disrupt` over all journeys. */
  function Replay(js: seq<Journey>, closed: string, g: GraphView, router: Router): (r: seq<Journey>)
    ensures |r| == |js|
    ensures forall i :: 0 <= i < |js| ==> r[i] == Reroute(js[i], closed, g, router)
  {
    seq(|js|, i requires 0 <= i < |js| => Reroute(js[i], closed, g, router))
  }

  /**
   * Replay never changes the number of journeys or their origin, target and
   * baseline route, and leaves a journey that starts or ends at the closed
   * station exactly as it was.
   */
  lemma ReplayKeepsBaseline(js: seq<Journey>, closed: string, g: GraphView, router: Router)
    ensures |Replay(js, closed, g, router)| == |js|
    ensures forall i :: 0 <= i < |js| ==>
      var r := Replay(js, closed, g, router)[i];
      r.origin == js[i].origin && r.target == js[i].target && r.baseline == js[i].baseline
    ensures forall i :: 0 <= i < |js| && closed in {js[i].origin, js[i].target} ==>
      Replay(js, closed, g, router)[i] == js[i]
  {
  }

  /**
   * On journeys not yet re-routed, a journey ends up with `*_new` fields
   * exactly when neither end is the closed station and a path exists.
   */
  lemma FirstReplayCancellations(js: seq<Journey>, closed: string, g: GraphView, router: Router)
    requires forall i :: 0 <= i < |js| ==> js[i].rerouted.None?
    ensures forall i :: 0 <= i < |js| ==>
      (Replay(js, closed, g, router)[i].rerouted.Some? <==>
        closed != js[i].origin && closed != js[i].target && router(g, js[i].origin, js[i].target).Some?)
  {
  }

  /** A router that only uses stations of the graph it is given. */
  ghost predicate RoutesWithinGraph(router: Router) {
    forall g: GraphView, o: string, t: string ::
      router(g, o, t).Some? ==> forall k :: 0 <= k < |router(g, o, t).value.stations| ==> router(g, o, t).value.stations[k] in g.nodes
  }

  /** Routes found after a closure avoid the closed station. */
  lemma NewRoutesAvoidClosed(js: seq<Journey>, closed: string, g: GraphView, router: Router)
    requires RoutesWithinGraph(router)
    requires closed !in g.nodes
    ensures forall i :: 0 <= i < |js| && closed != js[i].origin && closed != js[i].target
                        && router(g, js[i].origin, js[i].target).Some? ==>
      Replay(js, closed, g, router)[i].rerouted.Some? &&
      closed !in Replay(js, closed, g, router)[i].rerouted.value.stations
  {
    forall i | 0 <= i < |js| && closed != js[i].origin && closed != js[i].target
               && router(g, js[i].origin, js[i].target).Some?
      ensures closed !in Replay(js, closed, g, router)[i].rerouted.value.stations
    {
      var route := router(g, js[i].origin, js[i].target).value;
      assert Replay(js, closed, g, router)[i].rerouted == Some(route);
      forall k | 0 <= k < |route.stations| ensures route.stations[k] != closed {
        assert route.stations[k] in g.nodes;
      }
    }
  }

  /** A journey `plot_delay` keeps: it has `time_new`, and with `affected_only` a changed time. */
  predicate Keep(j: Journey, affectedOnly: bool): (b: bool)
    ensures b ==> j.rerouted.Some?
    ensures !affectedOnly ==> (b <==> j.rerouted.Some?)
    ensures affectedOnly ==> (b <==> j.rerouted.Some? && j.rerouted.value.time != j.baseline.time)
  {
    j.rerouted.Some? && (affectedOnly ==> j.baseline.time != j.rerouted.value.time)
  }

  /** The journeys `plot_delay` selects, in order. */
  function Selected(js: seq<Journey>, affectedOnly: bool): (r: seq<Journey>)
    ensures |r| <= |js|
    ensures forall i :: 0 <= i < |r| ==> Keep(r[i], affectedOnly)
    ensures forall x :: x in r <==> x in js && Keep(x, affectedOnly)
  {
    if js == [] then []
    else (if Keep(js[0], affectedOnly) then [js[0]] else []) + Selected(js[1..], affectedOnly)
  }

  lemma {:induction false} SelectedSnoc(js: seq<Journey>, j: Journey, affectedOnly: bool)
    ensures Selected(js + [j], affectedOnly) == Selected(js, affectedOnly) + (if Keep(j, affectedOnly) then [j] else [])
    decreases |js|
  {
    if js == [] {
      assert [] + [j] == [j];
    } else {
      assert (js + [j])[1..] == js[1..] + [j];
      SelectedSnoc(js[1..], j, affectedOnly);
    }
  }

  /** Selecting only affected journeys is selecting the changed ones among those with `time_new`. */
  lemma {:induction false} AffectedRefinesRerouted(js: seq<Journey>)
    ensures Selected(js, true) == Selected(Selected(js, false), true)
    decreases |js|
  {
    if js != [] {
      AffectedRefinesRerouted(js[1..]);
      var head := if Keep(js[0], false) then [js[0]] else [];
      assert Selected(js, false) == head + Selected(js[1..], false);
      if Keep(js[0], false) {
        assert (head + Selected(js[1..], false))[1..] == Selected(js[1..], false);
      } else {
        assert head + Selected(js[1..], false) == Selected(js[1..], false);
      }
    }
  }

  /** The `time` values of the selected journeys. */
  function OldTimes(sel: seq<Journey>): seq<int> {
    seq(|sel|, i requires 0 <= i < |sel| => sel[i].baseline.time)
  }

  /** The `time_new` values of the selected journeys. */
  function NewTimes(sel: seq<Journey>): seq<int>
    requires forall i :: 0 <= i < |sel| ==> sel[i].rerouted.Some?
  {
    seq(|sel|, i requires 0 <= i < |sel| => sel[i].rerouted.value.time)
  }

  lemma TimesSnoc(sel: seq<Journey>, j: Journey)
    requires forall i :: 0 <= i < |sel| ==> sel[i].rerouted.Some?
    requires j.rerouted.Some?
    ensures OldTimes(sel + [j]) == OldTimes(sel) + [j.baseline.time]
    ensures NewTimes(sel + [j]) == NewTimes(sel) + [j.rerouted.value.time]
  {
    assert forall i :: 0 <= i < |sel| ==> (sel + [j])[i] == sel[i];
  }

  /** One step of the `plot_delay` loop: journey `i` adds its two times exactly when it is kept. */
  lemma SelectStep(js: seq<Journey>, i: nat, affectedOnly: bool)
    requires i < |js|
    ensures OldTimes(Selected(js[..i + 1], affectedOnly)) ==
      OldTimes(Selected(js[..i], affectedOnly)) + (if Keep(js[i], affectedOnly) then [js[i].baseline.time] else [])
    ensures Keep(js[i], affectedOnly) ==>
      NewTimes(Selected(js[..i + 1], affectedOnly)) == NewTimes(Selected(js[..i], affectedOnly)) + [js[i].rerouted.value.time]
    ensures !Keep(js[i], affectedOnly) ==>
      NewTimes(Selected(js[..i + 1], affectedOnly)) == NewTimes(Selected(js[..i], affectedOnly))
  {
    assert js[..i + 1] == js[..i] + [js[i]];
    SelectedSnoc(js[..i], js[i], affectedOnly);
    var sel := Selected(js[..i], affectedOnly);
    if Keep(js[i], affectedOnly) {
      TimesSnoc(sel, js[i]);
    } else {
      assert sel + [] == sel;
    }
  }

  class Simulator {
    var journeyCount: nat
    var net: TransitGraph
    var stations: seq<string>
    var journeys: seq<Journey>
    var disrupted: bool

    /**
     * `Simulator(journey_count)`: a fresh, empty transit graph; `stations`
     * is the node list of that empty graph; no journeys; not disrupted.
     */
    constructor (journeyCount: nat)
      ensures this.journeyCount == journeyCount
      ensures fresh(net) && net.Valid() && net.View() == GraphView({}, map[])
      ensures stations == [] && journeys == [] && !disrupted
    {
      this.journeyCount := journeyCount;
      net := new TransitGraph();
      stations := [];
      journeys := [];
      disrupted := false;
    }

    /**
     * `generate_journeys()`, with `picks[k]` the pair `sample` draws in round
     * `k`. Only `journeys` changes.
     */
    method GenerateJourneys(picks: seq<(string, string)>, router: Router) returns (s: Status)
      requires |picks| == journeyCount
      requires |stations| >= 2 ==> forall i :: 0 <= i < |picks| ==> IsSample(picks[i], stations)
      modifies this`journeys
      ensures s == GenerateOutcome(journeyCount, stations, net.View(), picks, router).0
      ensures journeys == old(journeys) + GenerateOutcome(journeyCount, stations, net.View(), picks, router).1
    {
      if journeyCount > 0 && |stations| < 2 {
        return Raised(ValueError);
      }
      s := AppendJourneys(net.View(), picks, router);
    }

    /**
     * The loop of `generate_journeys` over the draws `picks` on the graph `g`:
     * route each draw and append its journey, stopping with NoPath at the
     * first draw without a path. Only `journeys` changes.
     */
    method AppendJourneys(g: GraphView, picks: seq<(string, string)>, router: Router) returns (s: Status)
      modifies this`journeys
      ensures s == (if Generate(g, picks, router).error.None? then Done else Raised(NoPath))
      ensures journeys == old(journeys) + Generate(g, picks, router).added
    {
      var n0 := |journeys|;
      var k := 0;
      while k < |picks|
        invariant 0 <= k <= |picks|
        invariant n0 <= |journeys| && journeys[..n0] == old(journeys)
        invariant Generate(g, picks, router) ==
          Generated(journeys[n0..] + Generate(g, picks[k..], router).added, Generate(g, picks[k..], router).error)
      {
        var origin, target := picks[k].0, picks[k].1;
        var route := router(g, origin, target);
        GenerateAt(g, picks, k, router);
        if route.None? {
          SplitAt(journeys, n0);
          return Raised(NoPath);
        }
        journeys := journeys + [Journey(origin, target, route.value, None)];
        k := k + 1;
      }
      assert picks[k..] == [];
      SplitAt(journeys, n0);
      s := Done;
    }

    /** The replay loop of `disrupt` on the graph `g` without the closed station. Only `journeys` changes. */
    method RerouteAll(closed: string, g: GraphView, router: Router)
      modifies this`journeys
      ensures journeys == Replay(old(journeys), closed, g, router)
    {
      ghost var before := journeys;
      var i := 0;
      while i < |journeys|
        invariant 0 <= i <= |journeys| == |before|
        invariant forall k :: 0 <= k < i ==> journeys[k] == Reroute(before[k], closed, g, router)
        invariant forall k :: i <= k < |journeys| ==> journeys[k] == before[k]
      {
        var journey := journeys[i];
        if closed != journey.origin && closed != journey.target {
          var route := router(g, journey.origin, journey.target);
          if route.Some? {
            journeys := journeys[i := journey.(rerouted := route)];
          }
        }
        i := i + 1;
      }
    }

    /**
     * `disrupt(station_to_close, print_unreachable)`. An unknown station ends
     * the process (`quit()`) with nothing changed. Otherwise journeys are
     * generated first if there are none, the station and its edges are
     * removed, and every journey is re-routed on the remaining graph.
     * `print_unreachable` only controls printing.
     */
    method Disrupt(stationToClose: string, printUnreachable: bool, picks: seq<(string, string)>, router: Router)
      returns (s: Status)
      requires net.Valid()
      requires |picks| == journeyCount
      requires |stations| >= 2 ==> forall i :: 0 <= i < |picks| ==> IsSample(picks[i], stations)
      modifies this, net
      ensures net == old(net) && net.Valid()
      ensures journeyCount == old(journeyCount) && stations == old(stations)
      ensures old(stationToClose !in net.nodes) ==>
        s == Exited && net.View() == old(net.View()) && journeys == old(journeys) && disrupted == old(disrupted)
      ensures old(stationToClose in net.nodes) ==>
        var gen := if old(journeys) == [] then GenerateOutcome(journeyCount, stations, old(net.View()), picks, router)
                   else (Done, []);
        && (gen.0 != Done ==>
              s == gen.0 && net.View() == old(net.View()) && journeys == old(journeys) + gen.1
              && disrupted == old(disrupted))
        && (gen.0 == Done ==>
              s == Done && disrupted
              && net.View() == WithoutNode(old(net.View()), stationToClose)
              && journeys == Replay(old(journeys) + gen.1, stationToClose, net.View(), router))
    {
      if !net.HasNode(stationToClose) {
        // find_possible_match only prints suggestions; quit() ends the process
        return Exited;
      }
      if |journeys| == 0 {
        s := GenerateJourneys(picks, router);
        if s != Done {
          return s;
        }
      }
      var removed := net.RemoveNode(stationToClose);
      RerouteAll(stationToClose, net.View(), router);
      disrupted := true;
      s := Done;
    }

    /** `get_stats()`: an empty dict before any disruption; the body after it is a stub returning None. */
    method GetStats() returns (stats: Option<map<string, int>>)
      ensures !disrupted <==> stats == Some(map[])
      ensures disrupted <==> stats == None
    {
      if !disrupted {
        return Some(map[]);
      }
      return None;
    }

    /**
     * The selection part of `plot_delay(affected_only)`: nothing before any
     * disruption; otherwise the `time` and `time_new` values, in journey
     * order, of the journeys that have `time_new` (and, with
     * `affected_only`, a different `time`).
     */
    method PlotDelay(affectedOnly: bool) returns (r: Option<(seq<int>, seq<int>)>)
      ensures !disrupted <==> r.None?
      ensures r.Some? ==> |r.value.0| == |r.value.1| == |Selected(journeys, affectedOnly)|
      ensures r.Some? ==>
        r.value.0 == OldTimes(Selected(journeys, affectedOnly)) && r.value.1 == NewTimes(Selected(journeys, affectedOnly))
    {
      if !disrupted {
        return None;
      }
      var timeOld: seq<int> := [];
      var timeNew: seq<int> := [];
      var i := 0;
      while i < |journeys|
        invariant 0 <= i <= |journeys|
        invariant timeOld == OldTimes(Selected(journeys[..i], affectedOnly))
        invariant timeNew == NewTimes(Selected(journeys[..i], affectedOnly))
      {
        var journey := journeys[i];
        SelectStep(journeys, i, affectedOnly);
        if affectedOnly {
          if journey.rerouted.Some? && journey.baseline.time != journey.rerouted.value.time {
            timeOld := timeOld + [journey.baseline.time];
            timeNew := timeNew + [journey.rerouted.value.time];
          }
        } else {
          if journey.rerouted.Some? {
            timeOld := timeOld + [journey.baseline.time];
            timeNew := timeNew + [journey.rerouted.value.time];
          }
        }
        i := i + 1;
      }
      assert journeys[..i] == journeys;
      return Some((timeOld, timeNew));
    }
  }
}
