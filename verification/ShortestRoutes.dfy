/** What a shortest route is like: its lines join at stations, and it comes to no place twice. */
module ShortestRoutes {
  import opened Wrappers
  import opened Maps
  import opened Reservations
  import opened LineSearch
  import opened Routes

  // ---------------------------------------------------------------- the lines of a route

  /** The lines of a route that are paths of the map. */
  function KnownPaths(m: seq<Spirit>, lines: seq<int>): (r: seq<MapPath>)
    ensures (forall i :: 0 <= i < |lines| ==> PathById(m, lines[i]).Some?) ==>
              |r| == |lines| && forall i :: 0 <= i < |lines| ==> r[i] == PathById(m, lines[i]).value
  {
    if lines == [] then []
    else
      var rest, last := lines[..|lines| - 1], lines[|lines| - 1];
      match PathById(m, last)
      case Some(p) => KnownPaths(m, rest) + [p]
      case None => KnownPaths(m, rest)
  }

  lemma {:induction false} KnownPathsAre(m: seq<Spirit>, lines: seq<int>)
    ensures forall p :: p in KnownPaths(m, lines) ==> p in Paths(m) && PathById(m, p.id) == Some(p)
  {
    if lines != [] {
      KnownPathsAre(m, lines[..|lines| - 1]);
      PathByIdFinds(m, lines[|lines| - 1]);
    }
  }

  /** Consecutive lines of a route share a station. */
  lemma RouteConnects(net: Network, occ: Occupancy, qu: Query, route: seq<int>)
    requires Loaded(net) && IsRoute(net, occ, qu, route)
    ensures forall i :: 0 <= i < |route| ==> PathById(net.m, route[i]).Some?
    ensures forall i :: 0 <= i < |route| - 1 ==>
              PathById(net.m, route[i]).value.end == PathById(net.m, route[i + 1]).value.start
  {
    forall i | 0 <= i < |route| - 1
      ensures PathById(net.m, route[i]).value.end == PathById(net.m, route[i + 1]).value.start
    {
      assert DrivableId(net, occ, qu, route[i]) && DrivableId(net, occ, qu, route[i + 1]);
      PathByIdFinds(net.m, route[i]);
      PathByIdFinds(net.m, route[i + 1]);
      assert Continues(PathById(net.m, route[i]).value, PathById(net.m, route[i + 1]).value);
    }
  }

  /** The paths of a route, from its start to its goal. */
  lemma RoutePaths(net: Network, occ: Occupancy, qu: Query, route: seq<int>)
    requires Loaded(net) && IsRoute(net, occ, qu, route)
    ensures var paths := KnownPaths(net.m, route);
      && |paths| == |route| > 0 && paths[0].start == qu.start && paths[|route| - 1].end == qu.end
      && (forall i :: 0 <= i < |route| ==> PathById(net.m, route[i]) == Some(paths[i]) && paths[i].id == route[i])
      && (forall i :: 0 <= i < |paths| - 1 ==> paths[i].end == paths[i + 1].start)
  {
    RouteConnects(net, occ, qu, route);
    forall i | 0 <= i < |route| ensures KnownPaths(net.m, route)[i].id == route[i] {
      PathByIdFinds(net.m, route[i]);
    }
  }

  // ---------------------------------------------------------------- the goal

  /** No line before the last one ends at the goal. */
  ghost predicate GoalOnlyAtEnd(m: seq<Spirit>, route: seq<int>, goal: int) {
    forall i :: 0 <= i < |route| - 1 && PathById(m, route[i]).Some? ==> PathById(m, route[i]).value.end != goal
  }

  lemma PrefixIsRoute(net: Network, occ: Occupancy, qu: Query, route: seq<int>, i: nat)
    requires IsRoute(net, occ, qu, route) && i < |route|
    requires PathById(net.m, route[i]).Some? && PathById(net.m, route[i]).value.end == qu.end
    ensures IsRoute(net, occ, qu, route[..i + 1])
  {
    hide DrivableId, Successors;
  }

  lemma {:induction false} PrefixShorter(m: seq<Spirit>, route: seq<int>, n: nat)
    requires n < |route| && forall i :: 0 <= i < |route| ==> LengthOf(m, route[i]) > 0
    ensures RouteLength(m, route[..n]) < RouteLength(m, route)
    decreases |route|
  {
    var front := route[..|route| - 1];
    if n < |front| {
      PrefixShorter(m, front, n);
      assert front[..n] == route[..n];
    } else {
      assert front == route[..n];
    }
  }

  /** A route all of whose lines have positive length never passes its goal before its end. */
  lemma ShortestMeetsGoalOnce(net: Network, occ: Occupancy, qu: Query, route: seq<int>, distance: int)
    requires IsMap(net.m) && IsShortest(net, occ, qu, route, distance)
    requires forall i :: 0 <= i < |route| ==> LengthOf(net.m, route[i]) > 0
    ensures GoalOnlyAtEnd(net.m, route, qu.end)
  {
    forall i | 0 <= i < |route| - 1 && PathById(net.m, route[i]).Some?
      ensures PathById(net.m, route[i]).value.end != qu.end
    {
      PrefixShorter(net.m, route, i + 1);
      if PathById(net.m, route[i]).value.end == qu.end {
        PrefixIsRoute(net, occ, qu, route, i);
      }
    }
  }

  // ---------------------------------------------------------------- nothing twice

  lemma {:induction false} RouteLengthAppend(m: seq<Spirit>, a: seq<int>, b: seq<int>)
    ensures RouteLength(m, a + b) == RouteLength(m, a) + RouteLength(m, b)
  {
    if b == [] {
      assert a + b == a;
    } else {
      RouteLengthAppend(m, a, b[..|b| - 1]);
      assert (a + b)[..|a + b| - 1] == a + b[..|b| - 1];
    }
  }

  lemma {:induction false} PositiveLength(m: seq<Spirit>, route: seq<int>)
    requires route != [] && forall i :: 0 <= i < |route| ==> LengthOf(m, route[i]) > 0
    ensures RouteLength(m, route) > 0
  {
    PrefixShorter(m, route, 0);
    assert route[..0] == [];
  }

  lemma LoopIsLonger(m: seq<Spirit>, route: seq<int>, i: nat, j: nat)
    requires i <= j < |route| && forall k :: 0 <= k < |route| ==> LengthOf(m, route[k]) > 0
    ensures RouteLength(m, route[..i] + route[j + 1..]) < RouteLength(m, route)
  {
    hide LengthOf, RouteLength;
    RouteLengthAppend(m, route[..i], route[j + 1..]);
    RouteLengthAppend(m, route[..i], route[i..j + 1]);
    RouteLengthAppend(m, route[..j + 1], route[j + 1..]);
    assert route[..i] + route[i..j + 1] == route[..j + 1];
    assert route == route[..j + 1] + route[j + 1..];
    PositiveLength(m, route[i..j + 1]);
  }

  lemma CutIsRoute(net: Network, occ: Occupancy, qu: Query, route: seq<int>, j: nat, k: nat)
    requires IsRoute(net, occ, qu, route) && j < k < |route| && route[j] == route[k]
    ensures IsRoute(net, occ, qu, route[..j + 1] + route[k + 1..])
  {
    if k == |route| - 1 {
      assert route[..j + 1] + route[k + 1..] == route[..j + 1];
      hide DrivableId, Successors;
    } else {
      hide IsRoute;
      assert route[k + 1] in Successors(net.adj, route[j]) by { NextIsSuccessor(net, occ, qu, route, k); }
      SpliceIsRoute(net, occ, qu, route, j, k + 1);
    }
  }

  lemma NextIsSuccessor(net: Network, occ: Occupancy, qu: Query, route: seq<int>, k: nat)
    requires IsRoute(net, occ, qu, route) && k < |route| - 1
    ensures route[k + 1] in Successors(net.adj, route[k])
  {
    hide DrivableId, Successors;
  }

  /** A shortest route of positive lines drives no line twice. */
  lemma ShortestNoLineTwice(net: Network, occ: Occupancy, qu: Query, route: seq<int>, distance: int, j: nat, k: nat)
    requires IsShortest(net, occ, qu, route, distance) && j < k < |route|
    requires forall i :: 0 <= i < |route| ==> LengthOf(net.m, route[i]) > 0
    ensures route[j] != route[k]
  {
    hide IsRoute, LengthOf, RouteLength;
    if route[j] == route[k] {
      CutIsRoute(net, occ, qu, route, j, k);
      LoopIsLonger(net.m, route, j + 1, k);
    }
  }

  lemma SpliceIsRoute(net: Network, occ: Occupancy, qu: Query, route: seq<int>, i: nat, n: nat)
    requires IsRoute(net, occ, qu, route) && i < n < |route| && route[n] in Successors(net.adj, route[i])
    ensures IsRoute(net, occ, qu, route[..i + 1] + route[n..])
  {
    hide DrivableId, Successors, PathById;
    var cut, a, b := route[..i + 1] + route[n..], route[..i + 1], route[n..];
    forall k | 0 <= k < |cut| ensures DrivableId(net, occ, qu, cut[k]) {
      if k <= i {
        assert cut[k] == route[k];
      } else {
        var j := n + (k - i - 1);
        assert cut[k] == b[k - i - 1] == route[j];
      }
    }
    forall k | 0 <= k < |cut| - 1 ensures cut[k + 1] in Successors(net.adj, cut[k]) {
      if k < i {
        assert cut[k] == route[k] && cut[k + 1] == route[k + 1];
      } else if k == i {
        assert cut[k] == route[i] && cut[k + 1] == b[0] == route[n];
      } else {
        var j := n + (k - i - 1);
        assert cut[k] == b[k - i - 1] == route[j] && cut[k + 1] == b[k - i] == route[j + 1];
      }
    }
    assert cut[|cut| - 1] == b[|b| - 1] == route[|route| - 1] && cut[0] == route[0];
  }

  /** Cutting a route where it comes back to a station leaves a route. */
  lemma LoopIsRoute(net: Network, occ: Occupancy, qu: Query, route: seq<int>, i: nat, j: nat)
    requires Loaded(net) && IsRoute(net, occ, qu, route) && i < j < |route| - 1
    requires PathById(net.m, route[i]).Some? && PathById(net.m, route[j + 1]).Some?
    requires Continues(PathById(net.m, route[i]).value, PathById(net.m, route[j + 1]).value)
    ensures IsRoute(net, occ, qu, route[..i + 1] + route[j + 1..])
  {
    hide IsRoute, Successors, Continues, PathById;
    PathByIdFinds(net.m, route[i]);
    PathByIdFinds(net.m, route[j + 1]);
    assert route[j + 1] in Successors(net.adj, route[i]);
    hide Loaded;
    SpliceIsRoute(net, occ, qu, route, i, j + 1);
  }

  /** A route from its start on when it comes back there is a route. */
  lemma TailIsRoute(net: Network, occ: Occupancy, qu: Query, route: seq<int>, j: nat)
    requires IsRoute(net, occ, qu, route) && j < |route|
    requires PathById(net.m, route[j]).Some? && PathById(net.m, route[j]).value.start == qu.start
    ensures IsRoute(net, occ, qu, route[j..])
  {
    hide DrivableId, Successors, PathById;
  }

  /** A shortest route of positive lines never comes back to its start. */
  lemma StartNotEntered(net: Network, occ: Occupancy, qu: Query, route: seq<int>, distance: int, i: nat)
    requires Loaded(net) && IsShortest(net, occ, qu, route, distance) && i < |route| && qu.start != qu.end
    requires forall k :: 0 <= k < |route| ==> LengthOf(net.m, route[k]) > 0
    ensures PathById(net.m, route[i]).Some? && PathById(net.m, route[i]).value.end != qu.start
  {
    hide LengthOf, RouteLength, Loaded, IsRoute, PathById;
    RoutePaths(net, occ, qu, route);
    var paths := KnownPaths(net.m, route);
    if paths[i].end == qu.start && i < |route| - 1 {
      assert paths[i].end == paths[i + 1].start;
      assert route[..0] + route[i + 1..] == route[i + 1..];
      TailIsRoute(net, occ, qu, route, i + 1);
      LoopIsLonger(net.m, route, 0, i);
    }
  }

  /** A loop that cannot be cut goes back over the line it came by. */
  lemma LoopGoesBack(net: Network, occ: Occupancy, qu: Query, route: seq<int>, distance: int, i: nat, j: nat,
                     paths: seq<MapPath>)
    requires Loaded(net) && IsShortest(net, occ, qu, route, distance) && i < j < |route|
    requires forall k :: 0 <= k < |route| ==> LengthOf(net.m, route[k]) > 0
    requires GoalOnlyAtEnd(net.m, route, qu.end)
    requires |paths| == |route| && paths[|route| - 1].end == qu.end
    requires forall k :: 0 <= k < |route| ==> PathById(net.m, route[k]) == Some(paths[k]) && paths[k].id == route[k]
    requires forall k :: 0 <= k < |paths| - 1 ==> paths[k].end == paths[k + 1].start
    requires paths[i].end == paths[j].end
    ensures j < |route| - 1 && paths[i].start == paths[j + 1].end
  {
    hide LengthOf, RouteLength, Loaded, IsRoute, PathById;
    assert j < |route| - 1 by {
      assert PathById(net.m, route[i]) == Some(paths[i]);
    }
    ShortestNoLineTwice(net, occ, qu, route, distance, i, j + 1);
    assert paths[j].end == paths[j + 1].start;
    if paths[i].start != paths[j + 1].end {
      LoopIsRoute(net, occ, qu, route, i, j);
      LoopIsLonger(net.m, route, i + 1, j);
    }
  }

  /** A shortest route of positive lines comes to no station twice: the loop could be cut, if not
      there, then one line earlier, and at last at its start. */
  lemma {:induction false} ShortestNoStationTwice(net: Network, occ: Occupancy, qu: Query, route: seq<int>, distance: int,
                                                  i: nat, j: nat)
    requires Loaded(net) && IsShortest(net, occ, qu, route, distance) && i < j < |route| && qu.start != qu.end
    requires forall k :: 0 <= k < |route| ==> LengthOf(net.m, route[k]) > 0
    ensures PathById(net.m, route[i]).Some? && PathById(net.m, route[j]).Some?
    ensures PathById(net.m, route[i]).value.end != PathById(net.m, route[j]).value.end
    decreases i
  {
    assert IsMap(net.m) by { LoadedIsMap(net); }
    ShortestMeetsGoalOnce(net, occ, qu, route, distance);
    hide LengthOf, RouteLength, Loaded, IsRoute, PathById, IsMap;
    RoutePaths(net, occ, qu, route);
    var paths := KnownPaths(net.m, route);
    if paths[i].end == paths[j].end {
      assert PathById(net.m, route[i]) == Some(paths[i]) && PathById(net.m, route[j]) == Some(paths[j]);
      LoopGoesBack(net, occ, qu, route, distance, i, j, paths);
      if i == 0 {
        StartNotEntered(net, occ, qu, route, distance, j + 1);
      } else {
        assert paths[i - 1].end == paths[i - 1 + 1].start;
        ShortestNoStationTwice(net, occ, qu, route, distance, i - 1, j + 1);
      }
    }
  }
}
