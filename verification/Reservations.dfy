/** The live reservations of the map manager as a value, and what its four reservation operations
    do to them.

    A station is reserved by one vehicle, a line by a list of vehicles.  For every COMMON group the
    manager also records one owner and the list of reserved spirits of the group. */
module Reservations {
  import opened Wrappers
  import opened Maps

  datatype GroupOccu = GroupOccu(agv: int, spirits: seq<int>)

  /** `station_occuagv`, `line_occuagvs` and `group_occuagv`. */
  datatype Occupancy = Occupancy(stations: map<int, int>, lines: map<int, seq<int>>, groups: map<int, GroupOccu>)

  /** A missing entry reads as 0: nobody. */
  function Owner(occ: Occupancy, station: int): int {
    if station in occ.stations then occ.stations[station] else 0
  }

  function Holders(occ: Occupancy, line: int): seq<int> {
    if line in occ.lines then occ.lines[line] else []
  }

  /** The vehicle holds the spirit, as a station or as a line. */
  predicate Holds(occ: Occupancy, spirit: int, agv: int) {
    (agv != 0 && Owner(occ, spirit) == agv) || agv in Holders(occ, spirit)
  }

  // ---------------------------------------------------------------- group records

  /** Ids of the groups that list the spirit. */
  function GroupsWith(groups: seq<MapGroup>, spirit: int): (r: seq<int>)
    ensures forall i :: i in r <==> exists g :: g in groups && g.id == i && spirit in g.spirits
  {
    if groups == [] then []
    else
      var rest, last := groups[..|groups| - 1], groups[|groups| - 1];
      assert groups == rest + [last];
      if spirit in last.spirits then GroupsWith(rest, spirit) + [last.id] else GroupsWith(rest, spirit)
  }

  /** `getGroup`: the COMMON groups of the spirit. */
  function CommonGroups(m: seq<Spirit>, spirit: int): seq<int> {
    GroupsWith(Groups(m, COMMON_GROUP), spirit)
  }

  function RecordedSpirits(groups: map<int, GroupOccu>, g: int): seq<int> {
    if g in groups then groups[g].spirits else []
  }

  /** One vehicle enters the spirit in the records of the given groups. */
  function Record(groups: map<int, GroupOccu>, ids: seq<int>, spirit: int, agv: int): map<int, GroupOccu> {
    if ids == [] then groups
    else
      var before, g := Record(groups, ids[..|ids| - 1], spirit, agv), ids[|ids| - 1];
      before[g := GroupOccu(agv, RecordedSpirits(before, g) + [spirit])]
  }

  /** One vehicle removes the spirit from the records of the given groups.  A record that stays is
      rewritten to that vehicle, whoever owned it. */
  function Forget(groups: map<int, GroupOccu>, ids: seq<int>, spirit: int, agv: int): map<int, GroupOccu> {
    if ids == [] then groups
    else
      var before, g := Forget(groups, ids[..|ids| - 1], spirit, agv), ids[|ids| - 1];
      if g !in before then before
      else
        var left := RemoveAll(before[g].spirits, spirit);
        if left == [] then before - {g} else before[g := GroupOccu(agv, left)]
  }

  /** What `Record` leaves in each group. */
  lemma {:induction false} RecordAt(groups: map<int, GroupOccu>, ids: seq<int>, spirit: int, agv: int)
    ensures var r := Record(groups, ids, spirit, agv);
      && (forall g :: g in r <==> g in groups || g in ids)
      && (forall g :: g in r && g !in ids ==> r[g] == groups[g])
      && (forall g :: g in ids ==> r[g].agv == agv)
      && (forall g, x :: g in ids ==> (x in r[g].spirits <==> x == spirit || x in RecordedSpirits(groups, g)))
  {
    if ids != [] {
      var rest := ids[..|ids| - 1];
      assert ids == rest + [ids[|ids| - 1]];
      RecordAt(groups, rest, spirit, agv);
    }
  }

  /** What `Forget` leaves in each group. */
  lemma {:induction false} ForgetAt(groups: map<int, GroupOccu>, ids: seq<int>, spirit: int, agv: int)
    requires forall g :: g in groups ==> groups[g].spirits != []
    ensures var r := Forget(groups, ids, spirit, agv);
      && (forall g :: g in r <==> g in groups && (g in ids ==> exists x :: x in groups[g].spirits && x != spirit))
      && (forall g :: g in r && g !in ids ==> r[g] == groups[g])
      && (forall g :: g in r && g in ids ==> r[g].agv == agv && r[g].spirits != [])
      && (forall g, x :: g in r && g in ids ==> (x in r[g].spirits <==> x in groups[g].spirits && x != spirit))
  {
    if ids != [] {
      var rest, g := ids[..|ids| - 1], ids[|ids| - 1];
      assert ids == rest + [g];
      ForgetAt(groups, rest, spirit, agv);
      var before := Forget(groups, rest, spirit, agv);
      if g in before {
        var left := RemoveAll(before[g].spirits, spirit);
        assert left != [] ==> left[0] in left;
      }
    }
  }

  // ---------------------------------------------------------------- the operations

  /** `addOccuStation`. */
  function AddStation(m: seq<Spirit>, occ: Occupancy, station: int, agv: int): Occupancy {
    occ.(stations := occ.stations[station := agv],
         groups := Record(occ.groups, CommonGroups(m, station), station, agv))
  }

  /** `addOccuLine`. */
  function AddLine(m: seq<Spirit>, occ: Occupancy, line: int, agv: int): Occupancy {
    var holders := Holders(occ, line);
    occ.(lines := occ.lines[line := if agv in holders then holders else holders + [agv]],
         groups := Record(occ.groups, CommonGroups(m, line), line, agv))
  }

  /** `freeStation`. */
  function FreeStation(m: seq<Spirit>, occ: Occupancy, station: int, agv: int): Occupancy {
    occ.(stations := if Owner(occ, station) == agv then occ.stations[station := 0] else occ.stations,
         groups := Forget(occ.groups, CommonGroups(m, station), station, agv))
  }

  /** `freeLine`. */
  function FreeLine(m: seq<Spirit>, occ: Occupancy, line: int, agv: int): Occupancy {
    occ.(lines := occ.lines[line := RemoveAll(Holders(occ, line), agv)],
         groups := Forget(occ.groups, CommonGroups(m, line), line, agv))
  }

  function AddLines(m: seq<Spirit>, occ: Occupancy, lines: seq<int>, agv: int): Occupancy {
    if lines == [] then occ
    else AddLine(m, AddLines(m, occ, lines[..|lines| - 1], agv), lines[|lines| - 1], agv)
  }

  /** What a dispatch writes: first the goal station, then every line of the route. */
  function Reserve(m: seq<Spirit>, occ: Occupancy, agv: int, goal: int, route: seq<int>): Occupancy {
    AddLines(m, AddStation(m, occ, goal, agv), route, agv)
  }

  /** What a dispatch reserves, spirit by spirit. */
  lemma {:induction false} AddLinesHolds(m: seq<Spirit>, occ: Occupancy, lines: seq<int>, agv: int)
    ensures var occ' := AddLines(m, occ, lines, agv);
      && occ'.stations == occ.stations
      && forall l, a :: a in Holders(occ', l) <==> a in Holders(occ, l) || (a == agv && l in lines)
  {
    if lines != [] {
      var rest, last := lines[..|lines| - 1], lines[|lines| - 1];
      AddLinesHolds(m, occ, rest, agv);
      assert lines == rest + [last];
      AddLineHolds(m, AddLines(m, occ, rest, agv), last, agv);
      hide AddLine, Holders;
    }
  }

  lemma AddLineHolds(m: seq<Spirit>, occ: Occupancy, line: int, agv: int)
    ensures var occ' := AddLine(m, occ, line, agv);
      && occ'.stations == occ.stations
      && forall l, a :: a in Holders(occ', l) <==> a in Holders(occ, l) || (a == agv && l == line)
  {
    hide Record, CommonGroups;
  }

  /** No vehicle is listed twice as the holder of a line. */
  ghost predicate ListedOnce(occ: Occupancy) {
    forall l, i, j :: 0 <= i < j < |Holders(occ, l)| ==> Holders(occ, l)[i] != Holders(occ, l)[j]
  }

  lemma AddLineOnce(m: seq<Spirit>, occ: Occupancy, line: int, agv: int)
    requires ListedOnce(occ)
    ensures ListedOnce(AddLine(m, occ, line, agv))
  {
    hide Record, CommonGroups;
    var occ' := AddLine(m, occ, line, agv);
    forall l, i, j | 0 <= i < j < |Holders(occ', l)| ensures Holders(occ', l)[i] != Holders(occ', l)[j] {
      assert l != line ==> Holders(occ', l) == Holders(occ, l);
    }
  }

  lemma {:induction false} AddLinesOnce(m: seq<Spirit>, occ: Occupancy, lines: seq<int>, agv: int)
    requires ListedOnce(occ)
    ensures ListedOnce(AddLines(m, occ, lines, agv))
  {
    hide ListedOnce, AddLine;
    if lines != [] {
      AddLinesOnce(m, occ, lines[..|lines| - 1], agv);
      AddLineOnce(m, AddLines(m, occ, lines[..|lines| - 1], agv), lines[|lines| - 1], agv);
    }
  }

  lemma {:induction false} RemovedOnce(s: seq<int>, x: int)
    requires forall i, j :: 0 <= i < j < |s| ==> s[i] != s[j]
    ensures forall i, j :: 0 <= i < j < |RemoveAll(s, x)| ==> RemoveAll(s, x)[i] != RemoveAll(s, x)[j]
  {
    if s != [] {
      var rest, last := s[..|s| - 1], s[|s| - 1];
      RemovedOnce(rest, x);
      var r := RemoveAll(rest, x);
      forall i | 0 <= i < |r| ensures r[i] != last {
        assert r[i] in r && r[i] in rest;
      }
    }
  }

  lemma FreeLineOnce(m: seq<Spirit>, occ: Occupancy, line: int, agv: int)
    requires ListedOnce(occ)
    ensures ListedOnce(FreeLine(m, occ, line, agv))
  {
    hide Forget, CommonGroups, RemoveAll;
    var occ' := FreeLine(m, occ, line, agv);
    forall l, i, j | 0 <= i < j < |Holders(occ', l)| ensures Holders(occ', l)[i] != Holders(occ', l)[j] {
      if l == line {
        RemovedOnce(Holders(occ, line), agv);
      } else {
        assert Holders(occ', l) == Holders(occ, l);
      }
    }
  }

  /** Whatever was reserved before still is, for the same vehicles. */
  ghost predicate StillHeld(before: Occupancy, after: Occupancy) {
    && (forall x :: Owner(before, x) != 0 ==> Owner(after, x) == Owner(before, x))
    && (forall l, a :: a in Holders(before, l) ==> a in Holders(after, l))
  }

  /** A dispatch to a station that is free for its vehicle takes nothing from anybody. */
  lemma ReserveTakesNothing(m: seq<Spirit>, occ: Occupancy, agv: int, goal: int, route: seq<int>)
    requires Owner(occ, goal) == 0 || Owner(occ, goal) == agv
    ensures StillHeld(occ, Reserve(m, occ, agv, goal, route))
  {
    AddLinesHolds(m, AddStation(m, occ, goal, agv), route, agv);
  }

  lemma HeldBySelf(occ: Occupancy)
    ensures StillHeld(occ, occ)
  {}

  lemma HeldByBoth(a: Occupancy, b: Occupancy, c: Occupancy)
    requires StillHeld(a, b) && StillHeld(b, c)
    ensures StillHeld(a, c)
  {
    hide Owner, Holders;
  }
}
