/** The check that a backend's fallbacks never lead back to it. */
module FallbackGraph {
  import opened Prelude

  type Graph = map<string, seq<string>>

  function Successors(g: Graph, n: string): seq<string> {
    if n in g then g[n] else []
  }

  /** Every name the graph mentions. */
  function Names(g: Graph): set<string> {
    g.Keys + set k, n | k in g && n in g[k] :: n
  }

  lemma SuccessorsAreNames(g: Graph, n: string)
    ensures forall m :: m in Successors(g, n) ==> m in Names(g) && n in Names(g)
  {
  }

  /** The cycle a check reports: the trail, closed by the repeated name. */
  type Check = Result<(), seq<string>>

  /** The names not yet on the trail; they run out. */
  ghost function Unseen(g: Graph, trail: seq<string>): nat {
    |Names(g) - set n | n in trail|
  }

  lemma UnseenDecreases(g: Graph, trail: seq<string>, n: string)
    requires n in Names(g) && n !in trail
    ensures Unseen(g, trail + [n]) < Unseen(g, trail)
  {
    var before := Names(g) - set m | m in trail;
    assert Names(g) - (set m | m in trail + [n]) == before - {n};
    assert n in before;
  }

  /** Visit a name that was reached along `trail`. */
  function Visit(g: Graph, n: string, trail: seq<string>): Check
    requires n in Names(g)
    decreases Unseen(g, trail), 1, 0
  {
    if n in trail then Err(trail + [n])
    else
      SuccessorsAreNames(g, n);
      UnseenDecreases(g, trail, n);
      VisitAll(g, Successors(g, n), trail + [n])
  }

  function VisitAll(g: Graph, names: seq<string>, trail: seq<string>): Check
    requires forall m :: m in names ==> m in Names(g)
    decreases Unseen(g, trail), 2, |names|
  {
    if names == [] then Ok(())
    else
      match Visit(g, names[0], trail)
      case Err(cycle) => Err(cycle)
      case Ok(_) => VisitAll(g, names[1..], trail)
  }

  /** The recursive visit as configuration loading runs it: a loop over the successors. */
  method VisitName(g: Graph, n: string, trail: seq<string>) returns (r: Check)
    requires n in Names(g)
    ensures r == Visit(g, n, trail)
    decreases Unseen(g, trail)
  {
    if n in trail {
      return Err(trail + [n]);
    }
    SuccessorsAreNames(g, n);
    UnseenDecreases(g, trail, n);
    var next := Successors(g, n);
    for i := 0 to |next|
      invariant VisitAll(g, next, trail + [n]) == VisitAll(g, next[i..], trail + [n])
    {
      assert next[i..][0] == next[i] && next[i..][1..] == next[i + 1..];
      var inner := VisitName(g, next[i], trail + [n]);
      if inner.Err? {
        return inner;
      }
    }
    return Ok(());
  }

  /** Check the whole graph; `order` lists its keys. */
  method ValidateNoFallbackCycles(g: Graph, order: seq<string>) returns (r: Check)
    requires forall n :: n in order <==> n in g
    ensures r.Err? <==> HasCycle(g)
    ensures r.Err? ==> ReportsCycle(g, r.error)
  {
    for i := 0 to |order|
      invariant forall j :: 0 <= j < i ==> Visit(g, order[j], []).Ok?
    {
      r := VisitName(g, order[i], []);
      if r.Err? {
        VisitReportsCycle(g, order[i], []);
        ReportedCycleIsCycle(g, r.error);
        return;
      }
    }
    forall n | n in g ensures Visit(g, n, []).Ok? {
      var j :| 0 <= j < |order| && order[j] == n;
    }
    CheckIsExact(g);
    return Ok(());
  }

  // ---------------------------------------------------------------- cycles

  /** Consecutive names are joined by an edge. */
  predicate IsPath(g: Graph, p: seq<string>) {
    forall i :: 0 <= i < |p| - 1 ==> p[i] in g && p[i + 1] in g[p[i]]
  }

  /** A path of at least one edge that ends where it starts. */
  predicate IsCycle(g: Graph, p: seq<string>) {
    |p| >= 2 && IsPath(g, p) && p[0] == p[|p| - 1]
  }

  ghost predicate HasCycle(g: Graph) {
    exists p :: IsCycle(g, p)
  }

  /** The reported names form a path whose last name occurred before. */
  ghost predicate ReportsCycle(g: Graph, report: seq<string>) {
    && |report| >= 2
    && IsPath(g, report)
    && exists i :: 0 <= i < |report| - 1 && report[i] == report[|report| - 1]
  }

  lemma ReportedCycleIsCycle(g: Graph, report: seq<string>)
    requires ReportsCycle(g, report)
    ensures HasCycle(g)
  {
    var i :| 0 <= i < |report| - 1 && report[i] == report[|report| - 1];
    assert IsCycle(g, report[i..]);
  }

  /** What a visit reports is a real cycle. */
  lemma {:induction false} VisitReportsCycle(g: Graph, n: string, trail: seq<string>)
    requires n in Names(g) && IsPath(g, trail + [n])
    ensures Visit(g, n, trail).Err? ==> ReportsCycle(g, Visit(g, n, trail).error)
    decreases Unseen(g, trail), 1, 0
  {
    if n in trail {
      var i :| 0 <= i < |trail| && trail[i] == n;
      assert (trail + [n])[i] == n;
    } else {
      SuccessorsAreNames(g, n);
      UnseenDecreases(g, trail, n);
      VisitAllReportsCycle(g, Successors(g, n), trail + [n]);
    }
  }

  lemma {:induction false} VisitAllReportsCycle(g: Graph, names: seq<string>, trail: seq<string>)
    requires forall m :: m in names ==> m in Names(g)
    requires forall m :: m in names ==> IsPath(g, trail + [m])
    ensures VisitAll(g, names, trail).Err? ==> ReportsCycle(g, VisitAll(g, names, trail).error)
    decreases Unseen(g, trail), 2, |names|
  {
    if names != [] {
      VisitReportsCycle(g, names[0], trail);
      if Visit(g, names[0], trail).Ok? {
        VisitAllReportsCycle(g, names[1..], trail);
      }
    }
  }

  lemma {:induction false} VisitAllMeets(g: Graph, names: seq<string>, trail: seq<string>, m: string)
    requires forall k :: k in names ==> k in Names(g)
    requires m in names && Visit(g, m, trail).Err?
    ensures VisitAll(g, names, trail).Err?
  {
    if Visit(g, names[0], trail).Ok? {
      assert m in names[1..];
      VisitAllMeets(g, names[1..], trail, m);
    }
  }

  /** From any name on a cycle, every visit ends in a report. */
  lemma {:induction false} CycleIsVisited(g: Graph, p: seq<string>, i: nat, trail: seq<string>)
    requires IsCycle(g, p) && i < |p| - 1
    ensures p[i] in g && p[i] in Names(g) && Visit(g, p[i], trail).Err?
    decreases Unseen(g, trail)
  {
    var n := p[i];
    assert p[i + 1] in Successors(g, n);
    if n !in trail {
      UnseenDecreases(g, trail, n);
      SuccessorsAreNames(g, n);
      var next := if i + 1 < |p| - 1 then i + 1 else 0;
      assert p[next] == p[i + 1];
      CycleIsVisited(g, p, next, trail + [n]);
      VisitAllMeets(g, Successors(g, n), trail + [n], p[next]);
    }
  }

  /** Some visit from a key reports exactly when the fallback graph has a cycle. */
  lemma CheckIsExact(g: Graph)
    ensures (exists n :: n in g && Visit(g, n, []).Err?) <==> HasCycle(g)
  {
    if n :| n in g && Visit(g, n, []).Err? {
      VisitReportsCycle(g, n, []);
      ReportedCycleIsCycle(g, Visit(g, n, []).error);
    }
    if p :| IsCycle(g, p) {
      CycleIsVisited(g, p, 0, []);
    }
  }
}
