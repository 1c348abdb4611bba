/** How the forklift cuts a route: at elevators into five parts, and on one floor into batches of one
    driving direction. */
module Elevators {
  import opened Wrappers
  import opened Maps
  import opened Reservations
  import opened Routes
  import opened ShortestRoutes

  /** A line of the route: whether the map knows it with both its stations, and whether the station
      it leaves and the one it enters are map-change (elevator) stations. */
  datatype Leg = Leg(line: int, known: bool, from: bool, to: bool)

  function ChangesMap(m: seq<Spirit>, station: int): bool {
    match PointOf(m, station)
    case Some(p) => p.mapChange
    case None => false
  }

  function LegOf(m: seq<Spirit>, line: int): Leg {
    match SpiritById(m, line)
    case Some(Path(p)) =>
      Leg(line, IsPoint(m, p.start) && IsPoint(m, p.end), ChangesMap(m, p.start), ChangesMap(m, p.end))
    case _ => Leg(line, false, false, false)
  }

  function LegsOf(m: seq<Spirit>, lines: seq<int>): (r: seq<Leg>)
    ensures |r| == |lines| && forall i :: 0 <= i < |r| ==> r[i] == LegOf(m, lines[i])
  {
    seq(|lines|, i requires 0 <= i < |lines| => LegOf(m, lines[i]))
  }

  function Lines(legs: seq<Leg>): (r: seq<int>)
    ensures |r| == |legs| && forall i :: 0 <= i < |r| ==> r[i] == legs[i].line
  {
    if legs == [] then [] else [legs[0].line] + Lines(legs[1..])
  }

  // ---------------------------------------------------------------- the five parts

  /** `getPathToElevator`: the lines before the first one that enters an elevator station. */
  function ToElevator(legs: seq<Leg>): seq<int> {
    if legs == [] then []
    else if !legs[0].known then ToElevator(legs[1..])
    else if legs[0].to then []
    else [legs[0].line] + ToElevator(legs[1..])
  }

  predicate Enters(l: Leg) {
    l.known && !l.from && l.to
  }

  predicate Rides(l: Leg) {
    l.known && l.from && l.to
  }

  predicate Exits(l: Leg) {
    l.known && l.from && !l.to
  }

  /** `getPathEnterElevator`: the first line from outside into an elevator. */
  function EnterElevator(legs: seq<Leg>): (r: seq<int>)
    ensures forall x :: x in r ==> x in Lines(legs)
  {
    if legs == [] then []
    else if Enters(legs[0]) then [legs[0].line]
    else EnterElevator(legs[1..])
  }

  /** `getPathInElevator`: the first lines between elevator stations, up to the first other line. */
  function InElevator(legs: seq<Leg>, started: bool): (r: seq<int>)
    ensures forall x :: x in r ==> x in Lines(legs)
  {
    if legs == [] then []
    else if !legs[0].known then InElevator(legs[1..], started)
    else if Rides(legs[0]) then [legs[0].line] + InElevator(legs[1..], true)
    else if started then []
    else InElevator(legs[1..], false)
  }

  /** `getPathOutElevator`: the first line out of an elevator. */
  function OutElevator(legs: seq<Leg>): seq<int> {
    if legs == [] then []
    else if Exits(legs[0]) then [legs[0].line]
    else OutElevator(legs[1..])
  }

  /** `getPathLeaveElevator`: everything behind the first line that follows a ride and is none. */
  function LeaveElevator(legs: seq<Leg>, elein: bool, addPath: bool): seq<int> {
    if legs == [] then []
    else if !legs[0].known then LeaveElevator(legs[1..], elein, addPath)
    else
      var inside := elein || Rides(legs[0]);
      (if addPath then [legs[0].line] else [])
      + LeaveElevator(legs[1..], inside, addPath || (inside && !Rides(legs[0])))
  }

  /** The five parts in driving order. */
  function Split(legs: seq<Leg>): seq<int> {
    ToElevator(legs) + EnterElevator(legs) + InElevator(legs, false) + OutElevator(legs) + LeaveElevator(legs, false, false)
  }

  /** A route: known lines, each leaving the station the one before enters. */
  ghost predicate IsConnected(legs: seq<Leg>) {
    && (forall i :: 0 <= i < |legs| ==> legs[i].known)
    && (forall i :: 0 <= i < |legs| - 1 ==> legs[i].to == legs[i + 1].from)
  }

  /** No line is driven twice. */
  ghost predicate NoneTwice(legs: seq<Leg>) {
    forall i, j :: 0 <= i < j < |legs| ==> legs[i].line != legs[j].line
  }

  lemma TailConnected(legs: seq<Leg>)
    requires IsConnected(legs) && legs != []
    ensures IsConnected(legs[1..]) && (|legs| > 1 ==> legs[1..][0].from == legs[0].to)
  {}

  lemma TailNoneTwice(legs: seq<Leg>)
    requires NoneTwice(legs) && legs != []
    ensures NoneTwice(legs[1..]) && legs[0].line !in Lines(legs[1..])
  {}

  /** Ride, exit and rest. */
  function Ride(legs: seq<Leg>): seq<int> {
    InElevator(legs, false) + OutElevator(legs) + LeaveElevator(legs, false, false)
  }

  lemma Join(x: seq<int>, a: seq<int>, b: seq<int>, c: seq<int>)
    ensures (x + a) + b + c == x + (a + b + c)
  {}

  // ---------------------------------------------------------------- one line further

  lemma StepOutside(legs: seq<Leg>)
    requires legs != [] && legs[0].known && !legs[0].from && !legs[0].to
    ensures ToElevator(legs) == [legs[0].line] + ToElevator(legs[1..])
    ensures EnterElevator(legs) == EnterElevator(legs[1..])
    ensures Ride(legs) == Ride(legs[1..])
  {
    StepBeforeRide(legs);
    hide InElevator, OutElevator, LeaveElevator, Lines;
  }

  /** A line that does not leave an elevator station is in none of the last three parts. */
  lemma StepBeforeRide(legs: seq<Leg>)
    requires legs != [] && legs[0].known && !legs[0].from
    ensures InElevator(legs, false) == InElevator(legs[1..], false)
    ensures OutElevator(legs) == OutElevator(legs[1..])
    ensures LeaveElevator(legs, false, false) == LeaveElevator(legs[1..], false, false)
  {
    hide Lines;
    assert [] + LeaveElevator(legs[1..], false, false) == LeaveElevator(legs[1..], false, false);
  }

  lemma StepEnter(legs: seq<Leg>)
    requires legs != [] && legs[0].known && !legs[0].from && legs[0].to
    ensures ToElevator(legs) == [] && EnterElevator(legs) == [legs[0].line]
    ensures Ride(legs) == Ride(legs[1..])
  {
    StepBeforeRide(legs);
    hide InElevator, OutElevator, LeaveElevator, Lines;
  }

  lemma StepRide(legs: seq<Leg>)
    requires legs != [] && Rides(legs[0])
    ensures forall b :: InElevator(legs, b) == [legs[0].line] + InElevator(legs[1..], true)
    ensures OutElevator(legs) == OutElevator(legs[1..])
    ensures forall b :: LeaveElevator(legs, b, false) == LeaveElevator(legs[1..], true, false)
  {}

  lemma StepExit(legs: seq<Leg>)
    requires legs != [] && Exits(legs[0])
    ensures InElevator(legs, true) == [] && InElevator(legs, false) == InElevator(legs[1..], false)
    ensures OutElevator(legs) == [legs[0].line]
    ensures LeaveElevator(legs, true, false) == LeaveElevator(legs[1..], true, true)
    ensures LeaveElevator(legs, false, false) == LeaveElevator(legs[1..], false, false)
  {}

  // ---------------------------------------------------------------- behind the entry

  /** Once a ride started, the ride, the exit and what follows are the whole rest. */
  lemma {:induction false} RideOn(legs: seq<Leg>)
    requires IsConnected(legs) && (legs != [] ==> legs[0].from)
    ensures InElevator(legs, true) + OutElevator(legs) + LeaveElevator(legs, true, false) == Lines(legs)
  {
    hide InElevator, OutElevator, LeaveElevator;
    if legs == [] {
      NothingLeft(legs);
    } else {
      TailConnected(legs);
      var rest := legs[1..];
      if legs[0].to {
        StepRide(legs);
        RideOn(rest);
        Join([legs[0].line], InElevator(rest, true), OutElevator(rest), LeaveElevator(rest, true, false));
      } else {
        StepExit(legs);
        LeaveAll(rest);
        assert [] + [legs[0].line] == [legs[0].line];
      }
    }
  }

  lemma NothingLeft(legs: seq<Leg>)
    requires legs == []
    ensures InElevator(legs, true) + OutElevator(legs) + LeaveElevator(legs, true, false) == []
    ensures Ride(legs) == []
  {}

  lemma {:induction false} LeaveAll(legs: seq<Leg>)
    requires IsConnected(legs)
    ensures LeaveElevator(legs, true, true) == Lines(legs)
  {
    if legs != [] {
      TailConnected(legs);
      LeaveAll(legs[1..]);
    }
  }

  /** Without a ride nothing is behind it. */
  lemma {:induction false} NoRideNoLeave(legs: seq<Leg>)
    requires InElevator(legs, false) == []
    ensures LeaveElevator(legs, false, false) == []
  {
    if legs != [] {
      NoRideNoLeave(legs[1..]);
    }
  }

  /** From an elevator station, when there is at most one line or the first one is a ride: ride, exit
      and rest make up the route, also when lines are driven twice. */
  lemma RideIf(legs: seq<Leg>)
    requires IsConnected(legs) && (legs != [] ==> legs[0].from)
    requires |legs| <= 1 || legs[0].to
    ensures Ride(legs) == Lines(legs)
  {
    hide InElevator, OutElevator, LeaveElevator, IsConnected, Lines;
    if legs == [] {
      NothingLeft(legs);
    } else {
      TailConnected(legs);
      assert legs[0].known by { FirstKnown(legs); }
      var rest, l := legs[1..], legs[0].line;
      LinesStep(legs);
      if legs[0].to {
        StepRide(legs);
        RideOn(rest);
        Join([l], InElevator(rest, true), OutElevator(rest), LeaveElevator(rest, true, false));
      } else {
        StepExit(legs);
        assert rest == [];
        NothingRidden();
        assert Ride(legs) == [l] + Lines(rest);
      }
    }
  }

  lemma NothingRidden()
    ensures InElevator([], false) == [] && LeaveElevator([], false, false) == [] && Lines([]) == []
  {}

  /** From an elevator station: ride, exit and rest make up a route that drives no line twice exactly when
      there is at most one line or the first one is a ride. */
  lemma RideIff(legs: seq<Leg>)
    requires IsConnected(legs) && NoneTwice(legs) && (legs != [] ==> legs[0].from)
    ensures Ride(legs) == Lines(legs) <==> |legs| <= 1 || legs[0].to
  {
    if |legs| <= 1 || legs[0].to {
      RideIf(legs);
    } else {
      hide InElevator, OutElevator, LeaveElevator, IsConnected, Lines;
      TailNoneTwice(legs);
      assert legs[0].known by { FirstKnown(legs); }
      var rest, l := legs[1..], legs[0].line;
      LinesStep(legs);
      StepExit(legs);
      var ride := InElevator(rest, false);
      if ride == [] {
        NoRideNoLeave(rest);
        assert Ride(legs) == [l];
      } else {
        assert ride[0] in ride && ride[0] in Lines(rest);
        assert Ride(legs)[0] == ride[0];
        assert Lines(legs)[0] == l;
      }
    }
  }

  lemma FirstKnown(legs: seq<Leg>)
    requires IsConnected(legs) && legs != []
    ensures legs[0].known
  {}

  lemma LinesStep(legs: seq<Leg>)
    requires legs != []
    ensures Lines(legs) == [legs[0].line] + Lines(legs[1..]) && |Lines(legs[1..])| == |legs| - 1
  {}

  // ---------------------------------------------------------------- the whole route

  /** The first line that enters an elevator station, or the length. */
  function FirstInto(legs: seq<Leg>): (e: nat)
    ensures e <= |legs|
  {
    if legs == [] || legs[0].to then 0 else 1 + FirstInto(legs[1..])
  }

  /** What is behind the first line that enters an elevator station. */
  function Behind(legs: seq<Leg>): seq<Leg> {
    if FirstInto(legs) < |legs| then legs[FirstInto(legs) + 1..] else []
  }

  /** The condition: from outside, the line behind the first entry is a ride, or there is at most one
      line behind it; from inside, the first line is a ride and no elevator is entered again. */
  predicate SplitsWell(legs: seq<Leg>) {
    legs == [] || (
      if legs[0].from then legs[0].to && forall i :: 0 <= i < |legs| ==> !Enters(legs[i])
      else FirstInto(legs) + 2 >= |legs| || legs[FirstInto(legs) + 1].to)
  }

  /** Outside, the lines up to the entry are the first two parts. */
  lemma {:induction false} BeforeEntry(legs: seq<Leg>) returns (front: seq<int>)
    requires IsConnected(legs) && (legs != [] ==> !legs[0].from)
    ensures IsConnected(Behind(legs)) && (Behind(legs) != [] ==> Behind(legs)[0].from)
    ensures ToElevator(legs) + EnterElevator(legs) == front && Ride(legs) == Ride(Behind(legs))
    ensures Lines(legs) == front + Lines(Behind(legs))
  {
    hide *;
    if legs == [] {
      front := [];
      NothingThere();
      NothingBehind();
    } else {
      TailConnected(legs);
      FirstKnown(legs);
      LinesStep(legs);
      var rest, l := legs[1..], legs[0].line;
      if legs[0].to {
        BehindEntry(legs);
        StepEnter(legs);
        front := [l];
        assert [] + [l] == [l];
      } else {
        var more := BeforeEntry(rest);
        StepOutside(legs);
        BehindStep(legs);
        front := [l] + more;
        Regroup(l, ToElevator(rest), EnterElevator(rest));
        Regroup(l, more, Lines(Behind(rest)));
      }
    }
  }

  lemma Regroup(x: int, a: seq<int>, b: seq<int>)
    ensures [x] + a + b == [x] + (a + b)
  {}

  lemma NothingBehind()
    ensures Behind([]) == []
  {}

  lemma BehindEntry(legs: seq<Leg>)
    requires legs != [] && legs[0].to
    ensures Behind(legs) == legs[1..]
  {}

  lemma BehindStep(legs: seq<Leg>)
    requires legs != [] && !legs[0].to
    ensures Behind(legs) == Behind(legs[1..])
  {
    var e := FirstInto(legs[1..]);
    assert e < |legs[1..]| ==> legs[e + 2..] == legs[1..][e + 1..];
  }

  lemma {:induction false} NoEntry(legs: seq<Leg>)
    ensures EnterElevator(legs) == [] <==> forall i :: 0 <= i < |legs| ==> !Enters(legs[i])
  {
    if legs != [] {
      NoEntry(legs[1..]);
      assert forall i :: 0 < i < |legs| ==> legs[i] == legs[1..][i - 1];
      if forall i :: 0 <= i < |legs| ==> !Enters(legs[i]) {
        forall i | 0 <= i < |legs[1..]| ensures !Enters(legs[1..][i]) {
          assert legs[1..][i] == legs[i + 1];
        }
      }
    }
  }

  /** The condition is enough for any connected route, also one that drives lines twice. */
  lemma SplitIsRouteIf(legs: seq<Leg>)
    requires IsConnected(legs) && SplitsWell(legs)
    ensures Split(legs) == Lines(legs)
  {
    hide IsConnected, Ride, Split, Lines, ToElevator, EnterElevator;
    SplitIs(legs);
    if legs == [] {
      NothingLeft(legs);
      NothingThere();
    } else if !legs[0].from {
      var front := BeforeEntry(legs);
      BehindLength(legs);
      RideIf(Behind(legs));
    } else {
      NoEntry(legs);
      RideIf(legs);
      InsideOnce(legs);
    }
  }

  /** The five parts put together are a route that drives no line twice exactly under this condition. */
  lemma SplitIsRouteIff(legs: seq<Leg>)
    requires IsConnected(legs) && NoneTwice(legs)
    ensures Split(legs) == Lines(legs) <==> SplitsWell(legs)
  {
    hide IsConnected, NoneTwice, Ride, Split, Lines, ToElevator, EnterElevator;
    if SplitsWell(legs) {
      SplitIsRouteIf(legs);
    } else if !legs[0].from {
      SplitIs(legs);
      var front := BeforeEntry(legs);
      BehindLength(legs);
      BehindNoneTwice(legs);
      RideIff(Behind(legs));
      SameFront(front, Ride(Behind(legs)), Lines(Behind(legs)));
    } else {
      NoEntry(legs);
      if legs[0].to {
        InsideAgain(legs);
      } else {
        LeavesTwice(legs);
      }
    }
  }

  lemma BehindNoneTwice(legs: seq<Leg>)
    requires NoneTwice(legs)
    ensures NoneTwice(Behind(legs))
  {}

  /** From inside, without another entry, the first two parts are empty. */
  lemma InsideOnce(legs: seq<Leg>)
    requires legs != [] && IsConnected(legs) && legs[0].to && EnterElevator(legs) == []
    ensures ToElevator(legs) + EnterElevator(legs) + Ride(legs) == Ride(legs)
  {
    hide Ride, EnterElevator, Lines;
    assert ToElevator(legs) == [];
  }

  lemma SplitIs(legs: seq<Leg>)
    ensures Split(legs) == ToElevator(legs) + EnterElevator(legs) + Ride(legs)
  {
    hide ToElevator, EnterElevator, InElevator, OutElevator, LeaveElevator;
    Join(ToElevator(legs) + EnterElevator(legs), InElevator(legs, false), OutElevator(legs), LeaveElevator(legs, false, false));
  }

  lemma NothingThere()
    ensures ToElevator([]) == [] && EnterElevator([]) == [] && Lines([]) == [] && SplitsWell([])
  {}

  lemma BehindLength(legs: seq<Leg>)
    requires legs != [] && !legs[0].from
    ensures SplitsWell(legs) <==> |Behind(legs)| <= 1 || Behind(legs)[0].to
  {}

  lemma SameFront(front: seq<int>, a: seq<int>, b: seq<int>)
    ensures front + a == front + b <==> a == b
  {
    assert (front + a)[|front|..] == a;
    assert (front + b)[|front|..] == b;
  }

  /** A later entry is driven first. */
  lemma InsideAgain(legs: seq<Leg>)
    requires IsConnected(legs) && NoneTwice(legs) && legs != [] && legs[0].from && legs[0].to
    requires EnterElevator(legs) != []
    ensures Split(legs) != Lines(legs)
  {
    hide Ride, Split;
    TailNoneTwice(legs);
    SplitIs(legs);
    var enter := EnterElevator(legs);
    assert ToElevator(legs) == [];
    assert enter == EnterElevator(legs[1..]);
    assert Split(legs)[0] == enter[0] && enter[0] in enter;
    assert Lines(legs)[0] == legs[0].line;
  }

  /** A first line out of the elevator is driven twice. */
  lemma LeavesTwice(legs: seq<Leg>)
    requires IsConnected(legs) && NoneTwice(legs) && legs != [] && legs[0].from && !legs[0].to
    ensures Split(legs) != Lines(legs)
  {
    hide InElevator, LeaveElevator, EnterElevator;
    var front := ToElevator(legs) + EnterElevator(legs) + InElevator(legs, false);
    var l := legs[0].line;
    assert ToElevator(legs)[0] == l && front[0] == l;
    assert Split(legs) == front + ([l] + LeaveElevator(legs, false, false));
    assert Split(legs)[|front|] == l;
    if |front| < |legs| {
      assert Lines(legs)[|front|] != l;
    }
  }

  // ---------------------------------------------------------------- the parts by their places

  /** On a route of known lines, the first part is what is before the first line that enters an elevator
      station. */
  lemma {:induction false} ToElevatorIs(legs: seq<Leg>, e: nat)
    requires forall k :: 0 <= k < |legs| ==> legs[k].known
    requires e <= |legs| && (forall k :: 0 <= k < e ==> !legs[k].to) && (e < |legs| ==> legs[e].to)
    ensures ToElevator(legs) == Lines(legs)[..e]
  {
    if legs != [] && e > 0 {
      ToElevatorIs(legs[1..], e - 1);
      LinesStep(legs);
    }
  }

  /** The entry is the first known line from outside into an elevator, and the exit the first known line out of
      one; they are missing only when there is no such line. */
  lemma {:induction false} EnterElevatorIs(legs: seq<Leg>, i: nat)
    requires i <= |legs| && forall k :: 0 <= k < i ==> !(legs[k].known && !legs[k].from && legs[k].to)
    requires i < |legs| ==> legs[i].known && !legs[i].from && legs[i].to
    ensures EnterElevator(legs) == if i < |legs| then [legs[i].line] else []
  {
    if legs != [] && i > 0 {
      EnterElevatorIs(legs[1..], i - 1);
    }
  }

  lemma {:induction false} OutElevatorIs(legs: seq<Leg>, i: nat)
    requires i <= |legs| && forall k :: 0 <= k < i ==> !(legs[k].known && legs[k].from && !legs[k].to)
    requires i < |legs| ==> legs[i].known && legs[i].from && !legs[i].to
    ensures OutElevator(legs) == if i < |legs| then [legs[i].line] else []
  {
    if legs != [] && i > 0 {
      OutElevatorIs(legs[1..], i - 1);
    }
  }

  /** Lines `i` up to `j` are the first ones between elevator stations, as many as follow each other. */
  ghost predicate FirstRide(legs: seq<Leg>, i: nat, j: nat) {
    && i <= j <= |legs| && (i == j ==> i == |legs|)
    && (forall k :: 0 <= k < |legs| ==> legs[k].known)
    && (forall k :: 0 <= k < i ==> !(legs[k].from && legs[k].to))
    && (forall k :: i <= k < j ==> legs[k].from && legs[k].to)
    && (j < |legs| ==> !(legs[j].from && legs[j].to))
  }

  /** On a route of known lines the ride is those lines, and the last part is what is behind the line that
      follows them. */
  lemma {:induction false} RideIs(legs: seq<Leg>, i: nat, j: nat)
    requires FirstRide(legs, i, j)
    ensures InElevator(legs, false) == Lines(legs)[i..j]
    ensures LeaveElevator(legs, false, false) == if j < |legs| then Lines(legs)[j + 1..] else []
  {
    hide InElevator, LeaveElevator, Lines;
    if legs == [] {
      NothingRidden();
    } else {
      LinesStep(legs);
      var rest := legs[1..];
      if i > 0 {
        RideIs(rest, i - 1, j - 1);
        NotYet(legs);
      } else {
        GoesOn(legs, j);
      }
    }
  }

  lemma NotYet(legs: seq<Leg>)
    requires legs != [] && legs[0].known && !(legs[0].from && legs[0].to)
    ensures InElevator(legs, false) == InElevator(legs[1..], false)
    ensures LeaveElevator(legs, false, false) == LeaveElevator(legs[1..], false, false)
  {
    hide Lines;
    assert [] + LeaveElevator(legs[1..], false, false) == LeaveElevator(legs[1..], false, false);
  }

  /** A ride that has started, or starts now, goes on to the first other line. */
  lemma {:induction false} GoesOn(legs: seq<Leg>, j: nat)
    requires j <= |legs| && forall k :: 0 <= k < |legs| ==> legs[k].known
    requires (forall k :: 0 <= k < j ==> legs[k].from && legs[k].to) && (j < |legs| ==> !(legs[j].from && legs[j].to))
    ensures InElevator(legs, true) == Lines(legs)[..j]
    ensures LeaveElevator(legs, true, false) == if j < |legs| then Lines(legs)[j + 1..] else []
    ensures j > 0 ==> InElevator(legs, false) == InElevator(legs, true)
                      && LeaveElevator(legs, false, false) == LeaveElevator(legs, true, false)
  {
    hide Lines;
    if legs == [] {
      NothingRidden();
    } else {
      LinesStep(legs);
      if j > 0 {
        GoesOn(legs[1..], j - 1);
        var rest := LeaveElevator(legs[1..], true, false);
        assert [] + rest == rest;
      } else {
        EverythingBehind(legs[1..]);
        var rest := LeaveElevator(legs[1..], true, true);
        assert [] + rest == rest;
      }
    }
  }

  lemma {:induction false} EverythingBehind(legs: seq<Leg>)
    requires forall k :: 0 <= k < |legs| ==> legs[k].known
    ensures LeaveElevator(legs, true, true) == Lines(legs)
  {
    if legs != [] {
      EverythingBehind(legs[1..]);
    }
  }

  /** What a line of the map is to the elevators: it leaves or enters one where its start or its end is a point
      at which the map changes. */
  lemma LegIs(m: seq<Spirit>, p: MapPath, a: MapPoint, b: MapPoint)
    requires UniqueIds(m) && Path(p) in m && Point(a) in m && Point(b) in m && p.start == a.id && p.end == b.id
    ensures LegOf(m, p.id) == Leg(p.id, true, a.mapChange, b.mapChange)
  {
    PlaceOf(m, Path(p));
    PlaceOf(m, Point(a));
    PlaceOf(m, Point(b));
  }

  /** A line makes the elevator necessary exactly when its end is a point at which the map changes. */
  lemma EntersIs(m: seq<Spirit>, p: MapPath, b: MapPoint)
    requires UniqueIds(m) && Path(p) in m && Point(b) in m && p.end == b.id
    ensures EntersStation(m, p.id) <==> b.mapChange
  {
    PlaceOf(m, Path(p));
    PlaceOf(m, Point(b));
  }

  lemma PlaceOf(m: seq<Spirit>, x: Spirit)
    requires UniqueIds(m) && x in m
    ensures SpiritById(m, x.Id()) == Some(x)
  {
    var i :| 0 <= i < |m| && m[i] == x;
    SpiritByIdAt(m, i);
  }

  // ---------------------------------------------------------------- planned routes

  lemma PointIsKnown(m: seq<Spirit>, id: int)
    requires UniqueIds(m) && PointById(m, id).Some?
    ensures IsPoint(m, id)
  {
    PointByIdFinds(m, id);
    var i :| 0 <= i < |m| && m[i] == Point(PointById(m, id).value);
    SpiritByIdAt(m, i);
  }

  lemma LegOfPath(m: seq<Spirit>, p: MapPath)
    requires UniqueIds(m) && p in Paths(m) && IsPoint(m, p.start) && IsPoint(m, p.end)
    ensures LegOf(m, p.id) == Leg(p.id, true, ChangesMap(m, p.start), ChangesMap(m, p.end))
  {
    hide IsPoint, ChangesMap;
    var i :| 0 <= i < |m| && m[i] == Path(p);
    SpiritByIdAt(m, i);
  }

  /** The stations of a planned route are points of the map. */
  lemma RouteStations(net: Network, occ: Occupancy, qu: Query, route: seq<int>, i: nat)
    requires Loaded(net) && qu.filtered && IsPoint(net.m, qu.start) && IsRoute(net, occ, qu, route) && i < |route|
    ensures var p := PathById(net.m, route[i]);
      p.Some? && p.value in Paths(net.m) && p.value.id == route[i] && IsPoint(net.m, p.value.start) && IsPoint(net.m, p.value.end)
  {
    LoadedIsMap(net);
    hide Loaded, PathById, PointById, IsPoint, UturnPoints, ReversesFree, GroupsFree;
    assert DrivableId(net, occ, qu, route[i]);
    PathByIdFinds(net.m, route[i]);
    PointIsKnown(net.m, PathById(net.m, route[i]).value.end);
    if i > 0 {
      assert DrivableId(net, occ, qu, route[i - 1]);
      PointIsKnown(net.m, PathById(net.m, route[i - 1]).value.end);
      RouteConnects(net, occ, qu, route);
    }
  }

  /** The planner's routes are connected, and drive no line twice when lines have positive length. */
  lemma PlannedIsConnected(net: Network, occ: Occupancy, agv: int, last: int, start: int, goal: int,
                           route: seq<int>, distance: int)
    requires Loaded(net) && PathAnswer(net, occ, agv, last, start, goal, false, route, distance)
    ensures IsConnected(LegsOf(net.m, route)) && Lines(LegsOf(net.m, route)) == route
    ensures (forall i :: 0 <= i < |route| ==> LengthOf(net.m, route[i]) > 0) ==> NoneTwice(LegsOf(net.m, route))
  {
    hide LegOf, Loaded, IsShortest, LengthOf, Lines;
    var m, legs := net.m, LegsOf(net.m, route);
    LegLines(m, route);
    if route != [] {
      var qu := Query(true, agv, KnownStart(last, start), goal);
      assert IsPoint(m, qu.start) && IsShortest(net, occ, qu, route, distance);
      hide PathAnswer, IsPoint;
      LegsConnected(net, occ, qu, route, distance);
      if forall i :: 0 <= i < |route| ==> LengthOf(m, route[i]) > 0 {
        forall i, j | 0 <= i < j < |legs| ensures legs[i].line != legs[j].line {
          ShortestNoLineTwice(net, occ, qu, route, distance, i, j);
        }
      }
    }
  }

  lemma LegsConnected(net: Network, occ: Occupancy, qu: Query, route: seq<int>, distance: int)
    requires Loaded(net) && qu.filtered && IsPoint(net.m, qu.start) && route != []
    requires IsShortest(net, occ, qu, route, distance)
    ensures IsConnected(LegsOf(net.m, route))
  {
    assert IsRoute(net, occ, qu, route);
    hide IsShortest, LegOf, Loaded, IsRoute, PathById, IsPoint, ChangesMap, KnownPaths;
    LoadedIsMap(net);
    RoutePaths(net, occ, qu, route);
    var m, legs, paths := net.m, LegsOf(net.m, route), KnownPaths(net.m, route);
    forall i | 0 <= i < |route|
      ensures legs[i] == Leg(route[i], true, ChangesMap(m, paths[i].start), ChangesMap(m, paths[i].end))
    {
      RouteStations(net, occ, qu, route, i);
      LegOfPath(m, paths[i]);
    }
    assert forall i :: 0 <= i < |paths| - 1 ==> paths[i].end == paths[i + 1].start;
  }

  lemma LegLines(m: seq<Spirit>, lines: seq<int>)
    ensures forall i :: 0 <= i < |lines| ==> LegsOf(m, lines)[i].line == lines[i]
    ensures Lines(LegsOf(m, lines)) == lines
  {
    assert forall i :: 0 <= i < |lines| ==> LegOf(m, lines[i]).line == lines[i];
  }

  // ---------------------------------------------------------------- rides

  /** There is a ride to take exactly when some line runs between elevator stations. */
  lemma {:induction false} NoRideIff(legs: seq<Leg>)
    ensures InElevator(legs, false) == [] <==> forall i :: 0 <= i < |legs| ==> !Rides(legs[i])
  {
    if legs != [] {
      NoRideIff(legs[1..]);
      assert forall i :: 0 < i < |legs| ==> legs[i] == legs[1..][i - 1];
      if forall i :: 0 <= i < |legs| ==> !Rides(legs[i]) {
        forall i | 0 <= i < |legs[1..]| ensures !Rides(legs[1..][i]) {
          assert legs[1..][i] == legs[i + 1];
        }
      }
    }
  }

  // ---------------------------------------------------------------- the loops

  method IsNeedTakeElevator(m: seq<Spirit>, lines: seq<int>) returns (need: bool)
    ensures need <==> exists i :: 0 <= i < |lines| && EntersStation(m, lines[i])
  {
    need := false;
    for k := 0 to |lines|
      invariant !need && forall i :: 0 <= i < k ==> !EntersStation(m, lines[i])
    {
      var spirit := SpiritById(m, lines[k]);
      if spirit.Some? && spirit.value.Path? {
        var station := PointOf(m, spirit.value.path.end);
        if station.Some? && station.value.mapChange {
          return true;
        }
      }
    }
  }

  /** The line is a path that enters a map-change station. */
  predicate EntersStation(m: seq<Spirit>, line: int) {
    var spirit := SpiritById(m, line);
    spirit.Some? && spirit.value.Path? && ChangesMap(m, spirit.value.path.end)
  }

  method GetPathToElevator(m: seq<Spirit>, lines: seq<int>) returns (paths: seq<int>)
    ensures paths == ToElevator(LegsOf(m, lines))
  {
    ghost var legs := LegsOf(m, lines);
    paths := [];
    for i := 0 to |lines|
      invariant paths + ToElevator(legs[i..]) == ToElevator(legs)
    {
      var leg := LegOf(m, lines[i]);
      assert legs[i..][0] == leg && legs[i..][1..] == legs[i + 1..];
      if !leg.known {
        continue;
      }
      if leg.to {
        return;
      }
      paths := paths + [lines[i]];
    }
  }

  method GetPathEnterElevator(m: seq<Spirit>, lines: seq<int>) returns (paths: seq<int>)
    ensures paths == EnterElevator(LegsOf(m, lines))
  {
    ghost var legs := LegsOf(m, lines);
    paths := [];
    for i := 0 to |lines|
      invariant paths == [] && EnterElevator(legs[i..]) == EnterElevator(legs)
    {
      var leg := LegOf(m, lines[i]);
      assert legs[i..][0] == leg && legs[i..][1..] == legs[i + 1..];
      if leg.known && !leg.from && leg.to {
        paths := paths + [lines[i]];
        return;
      }
    }
  }

  method GetPathInElevator(m: seq<Spirit>, lines: seq<int>) returns (paths: seq<int>)
    ensures paths == InElevator(LegsOf(m, lines), false)
  {
    ghost var legs := LegsOf(m, lines);
    paths := [];
    for i := 0 to |lines|
      invariant paths + InElevator(legs[i..], paths != []) == InElevator(legs, false)
    {
      var leg := LegOf(m, lines[i]);
      assert legs[i..][0] == leg && legs[i..][1..] == legs[i + 1..];
      if !leg.known {
        continue;
      }
      if leg.from && leg.to {
        paths := paths + [lines[i]];
      } else if |paths| > 0 {
        return;
      }
    }
  }

  method GetPathOutElevator(m: seq<Spirit>, lines: seq<int>) returns (paths: seq<int>)
    ensures paths == OutElevator(LegsOf(m, lines))
  {
    ghost var legs := LegsOf(m, lines);
    paths := [];
    for i := 0 to |lines|
      invariant paths == [] && OutElevator(legs[i..]) == OutElevator(legs)
    {
      var leg := LegOf(m, lines[i]);
      assert legs[i..][0] == leg && legs[i..][1..] == legs[i + 1..];
      if leg.known && leg.from && !leg.to {
        paths := paths + [lines[i]];
        return;
      }
    }
  }

  lemma LegLine(m: seq<Spirit>, line: int)
    ensures LegOf(m, line).line == line
  {}

  lemma NothingToLeave(elein: bool, addPath: bool)
    ensures LeaveElevator([], elein, addPath) == []
  {}

  lemma LeaveStep(legs: seq<Leg>, elein: bool, addPath: bool, paths: seq<int>)
    requires legs != []
    ensures var l, inside := legs[0], elein || (legs[0].from && legs[0].to);
      paths + LeaveElevator(legs, elein, addPath) ==
        if !l.known then paths + LeaveElevator(legs[1..], elein, addPath)
        else (if addPath then paths + [l.line] else paths)
             + LeaveElevator(legs[1..], inside, addPath || (inside && !(l.from && l.to)))
  {
    var l, inside := legs[0], elein || Rides(legs[0]);
    if l.known {
      var rest := LeaveElevator(legs[1..], inside, addPath || (inside && !Rides(l)));
      assert paths + ([l.line] + rest) == (paths + [l.line]) + rest && [] + rest == rest;
    }
  }

  method GetPathLeaveElevator(m: seq<Spirit>, lines: seq<int>) returns (paths: seq<int>)
    ensures paths == LeaveElevator(LegsOf(m, lines), false, false)
  {
    hide LeaveElevator, LegOf;
    ghost var legs := LegsOf(m, lines);
    paths := [];
    var addPath, elein := false, false;
    for i := 0 to |lines|
      invariant paths + LeaveElevator(legs[i..], elein, addPath) == LeaveElevator(legs, false, false)
    {
      var leg := LegOf(m, lines[i]);
      assert legs[i..][0] == leg && legs[i..][1..] == legs[i + 1..];
      assert leg.line == lines[i] by { LegLine(m, lines[i]); }
      LeaveStep(legs[i..], elein, addPath, paths);
      ghost var inside := elein || (leg.from && leg.to);
      ghost var adds := addPath || (inside && !(leg.from && leg.to));
      if !leg.known {
        continue;
      }
      if addPath {
        paths := paths + [lines[i]];
      }
      if leg.from && leg.to {
        elein := true;
      }
      if elein && !(leg.from && leg.to) {
        addPath := true;
      }
      assert elein == inside && addPath == adds;
    }
    assert legs[|lines|..] == [];
    NothingToLeave(elein, addPath);
  }

  // ---------------------------------------------------------------- batches on one floor

  datatype Drive = Drive(line: int, speed: real)

  predicate Opposed(a: Drive, b: Drive) {
    a.speed * b.speed < 0.0
  }

  function Joined(sent: seq<seq<Drive>>): seq<Drive> {
    if sent == [] then [] else Joined(sent[..|sent| - 1]) + sent[|sent| - 1]
  }

  /** Commands that cut the lines where one is driven against the first of its batch. */
  ghost predicate AreBatches(sent: seq<seq<Drive>>, drives: seq<Drive>) {
    && Joined(sent) == drives
    && (forall i :: 0 <= i < |sent| ==> IsBatch(sent[i]))
    && forall i :: 0 <= i < |sent| - 1 ==> Opposed(sent[i][0], sent[i + 1][0])
  }

  ghost predicate IsBatch(b: seq<Drive>) {
    b != [] && forall k :: 0 <= k < |b| ==> !Opposed(b[0], b[k])
  }

  lemma JoinedPush(sent: seq<seq<Drive>>, b: seq<Drive>)
    ensures Joined(sent + [b]) == Joined(sent) + b
  {
    assert (sent + [b])[..|sent|] == sent;
  }

  lemma NeverOwnOpposite(a: Drive)
    ensures !Opposed(a, a)
  {}

  /** The commands sent and the batch being collected cut the lines seen so far. */
  ghost predicate Cutting(sent: seq<seq<Drive>>, batch: seq<Drive>, seen: seq<Drive>) {
    && Joined(sent) + batch == seen
    && (batch == [] ==> sent == [])
    && (batch != [] ==> IsBatch(batch))
    && (forall k :: 0 <= k < |sent| ==> IsBatch(sent[k]))
    && (forall k :: 0 <= k < |sent| - 1 ==> Opposed(sent[k][0], sent[k + 1][0]))
    && (sent != [] ==> Opposed(sent[|sent| - 1][0], batch[0]))
  }

  lemma CutHere(sent: seq<seq<Drive>>, batch: seq<Drive>, seen: seq<Drive>, drive: Drive)
    requires Cutting(sent, batch, seen) && batch != [] && Opposed(batch[0], drive)
    ensures Cutting(sent + [batch], [drive], seen + [drive])
  {
    NeverOwnOpposite(drive);
    hide Opposed, Joined;
    JoinedPush(sent, batch);
  }

  lemma GoOn(sent: seq<seq<Drive>>, batch: seq<Drive>, seen: seq<Drive>, drive: Drive)
    requires Cutting(sent, batch, seen) && (batch != [] ==> !Opposed(batch[0], drive))
    ensures Cutting(sent, batch + [drive], seen + [drive])
  {
    NeverOwnOpposite(drive);
    hide Opposed, Joined;
    assert Joined(sent) + (batch + [drive]) == (Joined(sent) + batch) + [drive];
  }

  lemma AllCut(sent: seq<seq<Drive>>, batch: seq<Drive>, seen: seq<Drive>)
    requires Cutting(sent, batch, seen)
    ensures AreBatches(if batch == [] then sent else sent + [batch], seen)
  {
    hide Opposed;
    JoinedPush(sent, batch);
  }

  /** `goSameFloorPath`: the commands it sends. */
  method GoSameFloorPath(drives: seq<Drive>) returns (sent: seq<seq<Drive>>)
    ensures AreBatches(sent, drives)
  {
    hide Opposed, AreBatches;
    sent := [];
    var exelines: seq<Drive> := [];
    var start := 0;
    for i := 0 to |drives|
      invariant start == i && Cutting(sent, exelines, drives[..i])
    {
      hide Cutting;
      var drive := drives[i];
      start := start + 1;
      assert drives[..i + 1] == drives[..i] + [drive];
      if |exelines| == 0 {
        GoOn(sent, exelines, drives[..i], drive);
        exelines := exelines + [drive];
      } else if Opposed(exelines[0], drive) {
        CutHere(sent, exelines, drives[..i], drive);
        sent := sent + [exelines];
        exelines := [drive];
      } else {
        GoOn(sent, exelines, drives[..i], drive);
        exelines := exelines + [drive];
      }
    }
    assert drives[..|drives|] == drives;
    AllCut(sent, exelines, drives);
    if |exelines| > 0 {
      sent := sent + [exelines];
    }
  }

  lemma {:induction false} JoinedFront(b: seq<Drive>, sent: seq<seq<Drive>>)
    ensures Joined([b] + sent) == b + Joined(sent)
  {
    if sent == [] {
      assert [b] + sent == [] + [b];
      JoinedPush([], b);
    } else {
      var rest, last := sent[..|sent| - 1], sent[|sent| - 1];
      assert [b] + sent == ([b] + rest) + [last];
      JoinedPush([b] + rest, last);
      JoinedFront(b, rest);
    }
  }

  lemma TailBatches(sent: seq<seq<Drive>>, drives: seq<Drive>)
    requires AreBatches(sent, drives) && sent != []
    ensures |sent[0]| <= |drives| && sent[0] == drives[..|sent[0]|]
    ensures AreBatches(sent[1..], drives[|sent[0]|..])
    ensures |sent| > 1 ==> |sent[0]| < |drives| && sent[1][0] == drives[|sent[0]|]
    ensures |sent| == 1 ==> |sent[0]| == |drives|
  {
    hide Opposed;
    assert sent == [sent[0]] + sent[1..];
    JoinedFront(sent[0], sent[1..]);
    if |sent| > 1 {
      assert sent[1..] == [sent[1]] + sent[2..];
      JoinedFront(sent[1], sent[2..]);
    }
  }

  /** There is one way to cut a list into batches. */
  lemma {:induction false} BatchesUnique(a: seq<seq<Drive>>, b: seq<seq<Drive>>, drives: seq<Drive>)
    requires AreBatches(a, drives) && AreBatches(b, drives)
    ensures a == b
  {
    hide Opposed, Joined;
    if a == [] || b == [] {
      NoBatches(a, drives);
      NoBatches(b, drives);
    } else {
      TailBatches(a, drives);
      TailBatches(b, drives);
      FirstNotLonger(a, b, drives);
      FirstNotLonger(b, a, drives);
      BatchesUnique(a[1..], b[1..], drives[|a[0]|..]);
      assert a == [a[0]] + a[1..] && b == [b[0]] + b[1..];
    }
  }

  lemma NoBatches(sent: seq<seq<Drive>>, drives: seq<Drive>)
    requires AreBatches(sent, drives)
    ensures sent == [] <==> drives == []
  {
    if sent != [] {
      TailBatches(sent, drives);
    }
  }

  lemma FirstNotLonger(a: seq<seq<Drive>>, b: seq<seq<Drive>>, drives: seq<Drive>)
    requires AreBatches(a, drives) && AreBatches(b, drives) && a != [] && b != []
    ensures |b[0]| <= |a[0]|
  {
    hide Opposed, Joined;
    TailBatches(a, drives);
    TailBatches(b, drives);
    assert IsBatch(b[0]) && IsBatch(a[0]);
    assert forall k :: 0 <= k < |b[0]| ==> !Opposed(drives[0], drives[k]) && b[0][k] == drives[k];
    assert |a| > 1 ==> Opposed(drives[0], drives[|a[0]|]);
  }

  lemma NeverOpposedToZero(a: Drive)
    requires a.speed == 0.0
    ensures forall b :: !Opposed(a, b)
  {}

  lemma OpposesOne(a: Drive, b: Drive, c: Drive)
    ensures a.speed != 0.0 && b.speed > 0.0 && c.speed < 0.0 ==> Opposed(a, b) || Opposed(a, c)
  {
    if a.speed != 0.0 && b.speed > 0.0 && c.speed < 0.0 {
      OpposedIff(a, b);
      OpposedIff(a, c);
    }
  }

  /** Two speeds of one direction. */
  predicate SameWay(a: Drive, b: Drive) {
    (a.speed > 0.0 && b.speed > 0.0) || (a.speed < 0.0 && b.speed < 0.0)
  }

  lemma OpposedIff(a: Drive, b: Drive)
    requires a.speed != 0.0 && b.speed != 0.0
    ensures Opposed(a, b) <==> !SameWay(a, b)
  {
    if a.speed > 0.0 {
      if b.speed > 0.0 { assert a.speed * b.speed > 0.0; } else { assert a.speed * -b.speed > 0.0; }
    } else {
      if b.speed > 0.0 { assert -a.speed * b.speed > 0.0; } else { assert -a.speed * -b.speed > 0.0; }
    }
  }

  /** Without zero speeds the batches are the maximal runs of one direction. */
  lemma BatchesAreMaximalRuns(sent: seq<seq<Drive>>, drives: seq<Drive>)
    requires AreBatches(sent, drives)
    requires forall i, k :: 0 <= i < |sent| && 0 <= k < |sent[i]| ==> sent[i][k].speed != 0.0
    ensures forall i, j, k :: 0 <= i < |sent| && 0 <= j < |sent[i]| && 0 <= k < |sent[i]| ==>
              SameWay(sent[i][j], sent[i][k])
    ensures forall i :: 0 <= i < |sent| - 1 ==> !SameWay(sent[i][|sent[i]| - 1], sent[i + 1][0])
  {
    hide Opposed, Joined;
    forall i, k | 0 <= i < |sent| && 0 <= k < |sent[i]| ensures SameWay(sent[i][0], sent[i][k]) {
      OpposedIff(sent[i][0], sent[i][k]);
    }
    forall i | 0 <= i < |sent| - 1 ensures !SameWay(sent[i][|sent[i]| - 1], sent[i + 1][0]) {
      OpposedIff(sent[i][0], sent[i + 1][0]);
    }
  }

  /** A first line with speed zero takes every line into one batch. */
  lemma ZeroTakesAll(sent: seq<seq<Drive>>, drives: seq<Drive>)
    requires AreBatches(sent, drives) && drives != [] && drives[0].speed == 0.0
    ensures sent == [drives]
  {
    NoBatches(sent, drives);
    TailBatches(sent, drives);
    assert sent[0][0] == drives[0];
    NeverOpposedToZero(drives[0]);
    assert drives[..|drives|] == drives;
  }

  /** Only a batch that starts with speed zero can hold lines of both directions. */
  lemma MixedOnlyAfterZero(b: seq<Drive>, j: nat, k: nat)
    requires IsBatch(b) && j < |b| && k < |b|
    requires b[j].speed > 0.0 && b[k].speed < 0.0
    ensures b[0].speed == 0.0
  {
    hide Opposed;
    OpposesOne(b[0], b[j], b[k]);
  }
}
