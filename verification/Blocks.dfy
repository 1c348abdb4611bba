/** Mutual exclusion of blocks: nested vectors that implement a set of (block, vehicle, spirit)
    facts. */
module Blocks {
  import opened Wrappers

  /** `AgvOccuSpirits`: a vector element, copied by value. */
  datatype AgvOccuSpirits = AgvOccuSpirits(agv: int, spirits: seq<int>) {
    function AddSpirit(spirit: int): AgvOccuSpirits {
      if spirit in spirits then this else this.(spirits := spirits + [spirit])
    }

    function RemoveSpirit(spirit: int): AgvOccuSpirits {
      this.(spirits := RemoveAll(spirits, spirit))
    }
  }

  /** `BBlock`: a vector element, copied by value. */
  datatype BBlock = BBlock(id: int, agvSpirits: seq<AgvOccuSpirits>)

  // ---------------------------------------------------------------- the facts

  ghost predicate VehicleFact(entries: seq<AgvOccuSpirits>, agv: int, spirit: int) {
    exists j :: 0 <= j < |entries| && entries[j].agv == agv && spirit in entries[j].spirits
  }

  /** The vehicle occupies the spirit inside the block. */
  ghost predicate HasFact(blocks: seq<BBlock>, block: int, agv: int, spirit: int) {
    exists i :: 0 <= i < |blocks| && blocks[i].id == block && VehicleFact(blocks[i].agvSpirits, agv, spirit)
  }

  ghost predicate UniqueVehicles(entries: seq<AgvOccuSpirits>) {
    forall i, j :: 0 <= i < j < |entries| ==> entries[i].agv != entries[j].agv
  }

  /** One entry per block, one entry per vehicle in a block. */
  ghost predicate Unique(blocks: seq<BBlock>) {
    && (forall i, j :: 0 <= i < j < |blocks| ==> blocks[i].id != blocks[j].id)
    && forall i :: 0 <= i < |blocks| ==> UniqueVehicles(blocks[i].agvSpirits)
  }

  /** At most one vehicle occupies a block. */
  ghost predicate Exclusive(blocks: seq<BBlock>) {
    forall b, v, s, w, t :: HasFact(blocks, b, v, s) && HasFact(blocks, b, w, t) ==> v == w
  }

  /** No other vehicle occupies the block. */
  ghost predicate FreeFor(blocks: seq<BBlock>, block: int, agv: int) {
    forall v, s :: HasFact(blocks, block, v, s) ==> v == agv
  }

  ghost predicate AllFreeFor(blocks: seq<BBlock>, ids: seq<int>, agv: int) {
    forall b :: b in ids ==> FreeFor(blocks, b, agv)
  }

  /** The facts of `blocks'` are those of `blocks` and, for every listed block, the new one. */
  ghost predicate Added(blocks: seq<BBlock>, blocks': seq<BBlock>, ids: seq<int>, agv: int, spirit: int) {
    forall b, v, s :: HasFact(blocks', b, v, s) <==> HasFact(blocks, b, v, s) || (b in ids && v == agv && s == spirit)
  }

  /** The facts of `blocks'` are those of `blocks` without this vehicle's for the spirit in the
      listed blocks. */
  ghost predicate Freed(blocks: seq<BBlock>, blocks': seq<BBlock>, ids: seq<int>, agv: int, spirit: int) {
    forall b, v, s :: HasFact(blocks', b, v, s) <==> HasFact(blocks, b, v, s) && !(b in ids && v == agv && s == spirit)
  }

  // ---------------------------------------------------------------- one block

  /** `BBlock::addOccu` on the vector of vehicles. */
  method AddOccu(entries: seq<AgvOccuSpirits>, agv: int, spirit: int) returns (r: seq<AgvOccuSpirits>)
    requires UniqueVehicles(entries)
    ensures UniqueVehicles(r)
    ensures forall v, s :: VehicleFact(r, v, s) <==> VehicleFact(entries, v, s) || (v == agv && s == spirit)
  {
    for i := 0 to |entries|
      invariant forall k :: 0 <= k < i ==> entries[k].agv != agv
    {
      if entries[i].agv == agv {
        r := entries[i := entries[i].AddSpirit(spirit)];
        ChangedEntry(entries, r, i);
        return;
      }
    }
    r := entries + [AgvOccuSpirits(agv, []).AddSpirit(spirit)];
    forall v, s ensures VehicleFact(r, v, s) <==> VehicleFact(entries, v, s) || (v == agv && s == spirit) {
      if VehicleFact(entries, v, s) {
        var j :| 0 <= j < |entries| && entries[j].agv == v && s in entries[j].spirits;
        assert r[j] == entries[j];
      }
      assert r[|entries|] == AgvOccuSpirits(agv, [spirit]);
    }
  }

  /** `BBlock::removeOccu` on the vector of vehicles: only the first entry of the vehicle. */
  method RemoveOccu(entries: seq<AgvOccuSpirits>, agv: int, spirit: int) returns (r: seq<AgvOccuSpirits>)
    requires UniqueVehicles(entries)
    ensures UniqueVehicles(r)
    ensures forall v, s :: VehicleFact(r, v, s) <==> VehicleFact(entries, v, s) && !(v == agv && s == spirit)
  {
    for i := 0 to |entries|
      invariant forall k :: 0 <= k < i ==> entries[k].agv != agv
    {
      if entries[i].agv == agv {
        r := entries[i := entries[i].RemoveSpirit(spirit)];
        ChangedEntry(entries, r, i);
        return;
      }
    }
    r := entries;
  }

  /** Changing the spirits of one vehicle changes its facts and no others. */
  lemma ChangedEntry(entries: seq<AgvOccuSpirits>, r: seq<AgvOccuSpirits>, i: nat)
    requires UniqueVehicles(entries) && i < |entries| && |r| == |entries|
    requires r == entries[i := r[i]] && r[i].agv == entries[i].agv
    ensures UniqueVehicles(r)
    ensures forall v, s :: VehicleFact(r, v, s) <==>
              if v == entries[i].agv then s in r[i].spirits else VehicleFact(entries, v, s)
    ensures forall s :: VehicleFact(entries, entries[i].agv, s) <==> s in entries[i].spirits
  {
    forall v, s
      ensures VehicleFact(r, v, s) <==> if v == entries[i].agv then s in r[i].spirits else VehicleFact(entries, v, s)
    {
      if VehicleFact(r, v, s) {
        var j :| 0 <= j < |r| && r[j].agv == v && s in r[j].spirits;
        assert j != i ==> r[j] == entries[j];
      }
      if v != entries[i].agv && VehicleFact(entries, v, s) {
        var j :| 0 <= j < |entries| && entries[j].agv == v && s in entries[j].spirits;
        assert r[j] == entries[j];
      }
    }
  }

  /** `BBlock::passable`. */
  method EntriesPassable(entries: seq<AgvOccuSpirits>, agv: int) returns (ok: bool)
    ensures ok <==> forall v, s :: VehicleFact(entries, v, s) ==> v == agv
  {
    for i := 0 to |entries|
      invariant forall k :: 0 <= k < i ==> entries[k].agv == agv || entries[k].spirits == []
    {
      if entries[i].agv != agv && entries[i].spirits != [] {
        assert VehicleFact(entries, entries[i].agv, entries[i].spirits[0]);
        return false;
      }
    }
    return true;
  }

  // ---------------------------------------------------------------- the manager

  class BlockManager {
    var bblocks: seq<BBlock>

    ghost predicate Valid()
      reads this
    {
      Unique(bblocks)
    }

    constructor ()
      ensures Valid() && bblocks == []
    {
      bblocks := [];
    }

    method Clear()
      modifies this
      ensures Valid() && bblocks == []
    {
      bblocks := [];
    }

    method BlockPassable(blocks: seq<int>, agv: int) returns (ok: bool)
      requires Valid()
      ensures ok <==> AllFreeFor(bblocks, blocks, agv)
    {
      for k := 0 to |blocks|
        invariant forall h :: 0 <= h < k ==> FreeFor(bblocks, blocks[h], agv)
      {
        for i := 0 to |bblocks|
          invariant forall j :: 0 <= j < i && bblocks[j].id == blocks[k] ==>
                      forall v, s :: VehicleFact(bblocks[j].agvSpirits, v, s) ==> v == agv
        {
          if bblocks[i].id == blocks[k] {
            var free := EntriesPassable(bblocks[i].agvSpirits, agv);
            if !free {
              ghost var v, s :| VehicleFact(bblocks[i].agvSpirits, v, s) && v != agv;
              assert HasFact(bblocks, blocks[k], v, s);
              assert blocks[k] in blocks;
              return false;
            }
          }
        }
      }
      return true;
    }

    /** All or nothing: when every block of the list is free for the vehicle, it occupies the spirit
        in all of them; otherwise nothing changes. */
    method TryAddBlockOccu(blocks: seq<int>, agv: int, spirit: int) returns (ok: bool)
      requires Valid()
      modifies this
      ensures Valid()
      ensures ok <==> old(AllFreeFor(bblocks, blocks, agv))
      ensures ok ==> Added(old(bblocks), bblocks, blocks, agv, spirit)
      ensures !ok ==> bblocks == old(bblocks)
    {
      ok := BlockPassable(blocks, agv);
      if !ok {
        return;
      }
      for k := 0 to |blocks|
        invariant Valid()
        invariant Added(old(bblocks), bblocks, blocks[..k], agv, spirit)
      {
        ghost var before := bblocks;
        AddOne(blocks[k], agv, spirit);
        assert blocks[..k + 1] == blocks[..k] + [blocks[k]];
        AddedTwice(old(bblocks), before, bblocks, blocks[..k], blocks[k], agv, spirit);
      }
      assert blocks[..|blocks|] == blocks;
    }

    /** The inner loop of `tryAddBlockOccu`. */
    method AddOne(block: int, agv: int, spirit: int)
      requires Valid()
      modifies this
      ensures Valid()
      ensures Added(old(bblocks), bblocks, [block], agv, spirit)
    {
      for i := 0 to |bblocks|
        invariant bblocks == old(bblocks)
        invariant forall k :: 0 <= k < i ==> bblocks[k].id != block
      {
        if bblocks[i].id == block {
          var entries := AddOccu(bblocks[i].agvSpirits, agv, spirit);
          bblocks := bblocks[i := BBlock(block, entries)];
          ChangedBlock(old(bblocks), bblocks, i);
          return;
        }
      }
      var entries := AddOccu([], agv, spirit);
      bblocks := bblocks + [BBlock(block, entries)];
      NewBlock(old(bblocks), bblocks);
    }

    /** `freeBlockOccu`. */
    method FreeBlockOccu(blocks: seq<int>, agv: int, spirit: int)
      requires Valid()
      modifies this
      ensures Valid()
      ensures Freed(old(bblocks), bblocks, blocks, agv, spirit)
    {
      for k := 0 to |blocks|
        invariant Valid()
        invariant Freed(old(bblocks), bblocks, blocks[..k], agv, spirit)
      {
        ghost var before := bblocks;
        FreeOne(blocks[k], agv, spirit);
        assert blocks[..k + 1] == blocks[..k] + [blocks[k]];
        FreedTwice(old(bblocks), before, bblocks, blocks[..k], blocks[k], agv, spirit);
      }
      assert blocks[..|blocks|] == blocks;
    }

    /** The inner loop of `freeBlockOccu`, which does not stop at the first match. */
    method FreeOne(block: int, agv: int, spirit: int)
      requires Valid()
      modifies this
      ensures Valid()
      ensures Freed(old(bblocks), bblocks, [block], agv, spirit)
    {
      for i := 0 to |bblocks|
        invariant Valid()
        invariant |bblocks| == |old(bblocks)|
        invariant forall k :: 0 <= k < |bblocks| ==> bblocks[k].id == old(bblocks)[k].id
        invariant forall k :: i <= k < |bblocks| ==> bblocks[k] == old(bblocks)[k]
        invariant if exists k :: 0 <= k < i && old(bblocks)[k].id == block
                  then Freed(old(bblocks), bblocks, [block], agv, spirit)
                  else bblocks == old(bblocks)
      {
        if bblocks[i].id == block {
          assert bblocks == old(bblocks);
          var entries := RemoveOccu(bblocks[i].agvSpirits, agv, spirit);
          bblocks := bblocks[i := BBlock(block, entries)];
          ChangedBlock(old(bblocks), bblocks, i);
        }
      }
      if bblocks == old(bblocks) {
        assert forall v, s :: HasFact(bblocks, block, v, s) ==> exists k :: 0 <= k < |bblocks| && bblocks[k].id == block;
      }
    }
  }

  /** Changing one block changes its facts and no others. */
  lemma ChangedBlock(blocks: seq<BBlock>, r: seq<BBlock>, i: nat)
    requires Unique(blocks) && i < |blocks| && |r| == |blocks|
    requires r == blocks[i := r[i]] && r[i].id == blocks[i].id && UniqueVehicles(r[i].agvSpirits)
    ensures Unique(r)
    ensures forall b, v, s :: HasFact(r, b, v, s) <==>
              if b == blocks[i].id then VehicleFact(r[i].agvSpirits, v, s) else HasFact(blocks, b, v, s)
    ensures forall v, s :: HasFact(blocks, blocks[i].id, v, s) <==> VehicleFact(blocks[i].agvSpirits, v, s)
  {
    hide VehicleFact;
    forall b, v, s
      ensures HasFact(r, b, v, s) <==>
              if b == blocks[i].id then VehicleFact(r[i].agvSpirits, v, s) else HasFact(blocks, b, v, s)
    {
      if HasFact(r, b, v, s) {
        var j :| 0 <= j < |r| && r[j].id == b && VehicleFact(r[j].agvSpirits, v, s);
        assert j != i ==> r[j] == blocks[j];
      }
      if b != blocks[i].id && HasFact(blocks, b, v, s) {
        var j :| 0 <= j < |blocks| && blocks[j].id == b && VehicleFact(blocks[j].agvSpirits, v, s);
        assert r[j] == blocks[j];
      }
    }
  }

  lemma NewBlock(blocks: seq<BBlock>, r: seq<BBlock>)
    requires Unique(blocks) && |r| == |blocks| + 1 && r[..|blocks|] == blocks
    requires forall k :: 0 <= k < |blocks| ==> blocks[k].id != r[|blocks|].id
    requires UniqueVehicles(r[|blocks|].agvSpirits)
    ensures Unique(r)
    ensures forall b, v, s :: HasFact(r, b, v, s) <==>
              HasFact(blocks, b, v, s) || (b == r[|blocks|].id && VehicleFact(r[|blocks|].agvSpirits, v, s))
  {
    hide VehicleFact;
    assert forall k :: 0 <= k < |blocks| ==> r[k] == blocks[k];
    forall b, v, s
      ensures HasFact(r, b, v, s) <==>
              HasFact(blocks, b, v, s) || (b == r[|blocks|].id && VehicleFact(r[|blocks|].agvSpirits, v, s))
    {
      if HasFact(blocks, b, v, s) {
        var j :| 0 <= j < |blocks| && blocks[j].id == b && VehicleFact(blocks[j].agvSpirits, v, s);
        assert r[j] == blocks[j];
      }
    }
  }

  lemma AddedTwice(a: seq<BBlock>, b: seq<BBlock>, c: seq<BBlock>, ids: seq<int>, block: int, agv: int, spirit: int)
    requires Added(a, b, ids, agv, spirit) && Added(b, c, [block], agv, spirit)
    ensures Added(a, c, ids + [block], agv, spirit)
  {
    hide HasFact;
  }

  lemma FreedTwice(a: seq<BBlock>, b: seq<BBlock>, c: seq<BBlock>, ids: seq<int>, block: int, agv: int, spirit: int)
    requires Freed(a, b, ids, agv, spirit) && Freed(b, c, [block], agv, spirit)
    ensures Freed(a, c, ids + [block], agv, spirit)
  {
    hide HasFact;
  }

  // ---------------------------------------------------------------- runs

  /** A call of the manager, with its answer when it tries to enter. */
  datatype Call = Enter(ids: seq<int>, agv: int, spirit: int, ok: bool) | Leave(ids: seq<int>, agv: int, spirit: int)

  /** What the contracts of the two operations allow. */
  ghost predicate Effect(before: seq<BBlock>, call: Call, after: seq<BBlock>) {
    match call
    case Enter(ids, agv, spirit, ok) =>
      && (ok <==> AllFreeFor(before, ids, agv))
      && (if ok then Added(before, after, ids, agv, spirit) else after == before)
    case Leave(ids, agv, spirit) => Freed(before, after, ids, agv, spirit)
  }

  lemma EffectKeepsExclusive(before: seq<BBlock>, call: Call, after: seq<BBlock>)
    requires Exclusive(before) && Effect(before, call, after)
    ensures Exclusive(after)
  {
    hide HasFact;
    match call
    case Enter(ids, agv, spirit, ok) =>
      if ok {
        forall b, v, s, w, t | HasFact(after, b, v, s) && HasFact(after, b, w, t) ensures v == w {
          if b in ids {
            assert FreeFor(before, b, agv);
          }
        }
      }
    case Leave(ids, agv, spirit) =>
  }

  /** In every run of calls from the empty manager, at most one vehicle occupies any block. */
  lemma {:induction false} AlwaysExclusive(states: seq<seq<BBlock>>, calls: seq<Call>)
    requires |states| == |calls| + 1 && states[0] == []
    requires forall i :: 0 <= i < |calls| ==> Effect(states[i], calls[i], states[i + 1])
    ensures forall i :: 0 <= i < |states| ==> Exclusive(states[i])
  {
    hide Effect;
    for i := 0 to |calls|
      invariant forall k :: 0 <= k <= i ==> Exclusive(states[k])
    {
      EffectKeepsExclusive(states[i], calls[i], states[i + 1]);
    }
  }

  /** While a vehicle occupies a block, that vehicle and no other may enter it again. */
  lemma OnlyOccupantEnters(blocks: seq<BBlock>, block: int, agv: int, spirit: int, other: int)
    requires Exclusive(blocks) && HasFact(blocks, block, agv, spirit)
    ensures FreeFor(blocks, block, other) <==> other == agv
  {
    hide HasFact;
  }

  // ---------------------------------------------------------------- test and entry as two steps

  /** Entering without a test keeps at most one vehicle per block if and only if the blocks are free for
      the vehicle at the moment of entry. */
  lemma EntryExclusiveIff(s: seq<BBlock>, s': seq<BBlock>, ids: seq<int>, agv: int, spirit: int)
    requires Exclusive(s) && Added(s, s', ids, agv, spirit)
    ensures Exclusive(s') <==> AllFreeFor(s, ids, agv)
  {
    hide HasFact;
    if AllFreeFor(s, ids, agv) {
      EffectKeepsExclusive(s, Enter(ids, agv, spirit, true), s');
    } else {
      var b :| b in ids && !FreeFor(s, b, agv);
      var v, t :| HasFact(s, b, v, t) && v != agv;
      assert HasFact(s', b, v, t) && HasFact(s', b, agv, spirit);
    }
  }

  /** The two critical sections of `tryAddBlockOccu` as steps of their own, and leaving. */
  datatype Section = Test(ids: seq<int>, agv: int, ok: bool) | Put(ids: seq<int>, agv: int, spirit: int)
                   | Take(ids: seq<int>, agv: int, spirit: int)

  ghost predicate Does(before: seq<BBlock>, c: Section, after: seq<BBlock>) {
    match c
    case Test(ids, agv, ok) => after == before && (ok <==> AllFreeFor(before, ids, agv))
    case Put(ids, agv, spirit) => Added(before, after, ids, agv, spirit)
    case Take(ids, agv, spirit) => Freed(before, after, ids, agv, spirit)
  }

  /** An entry finds its blocks free for its vehicle. */
  ghost predicate FreeAtEntry(before: seq<BBlock>, c: Section) {
    c.Put? ==> AllFreeFor(before, c.ids, c.agv)
  }

  lemma SectionExclusiveIff(before: seq<BBlock>, c: Section, after: seq<BBlock>)
    requires Exclusive(before) && Does(before, c, after)
    ensures Exclusive(after) <==> FreeAtEntry(before, c)
  {
    hide HasFact, AllFreeFor;
    match c
    case Test(ids, agv, ok) =>
    case Put(ids, agv, spirit) => EntryExclusiveIff(before, after, ids, agv, spirit);
    case Take(ids, agv, spirit) => EffectKeepsExclusive(before, Leave(ids, agv, spirit), after);
  }

  /** In every run of the separate sections from the empty manager, however the vehicles interleave: at
      most one vehicle occupies any block throughout if and only if every entry finds its blocks still
      free for its vehicle. */
  lemma {:induction false} ExclusiveIffFreeAtEntry(states: seq<seq<BBlock>>, calls: seq<Section>)
    requires |states| == |calls| + 1 && states[0] == []
    requires forall i :: 0 <= i < |calls| ==> Does(states[i], calls[i], states[i + 1])
    ensures (forall i :: 0 <= i < |states| ==> Exclusive(states[i]))
            <==> forall i :: 0 <= i < |calls| ==> FreeAtEntry(states[i], calls[i])
  {
    assert Exclusive(states[0]);
    hide Does, FreeAtEntry, Exclusive;
    if forall i :: 0 <= i < |calls| ==> FreeAtEntry(states[i], calls[i]) {
      for i := 0 to |calls|
        invariant forall k :: 0 <= k <= i ==> Exclusive(states[k])
      {
        assert FreeAtEntry(states[i], calls[i]);
        SectionExclusiveIff(states[i], calls[i], states[i + 1]);
      }
    }
    if forall i :: 0 <= i < |states| ==> Exclusive(states[i]) {
      forall i | 0 <= i < |calls| ensures FreeAtEntry(states[i], calls[i]) {
        assert Exclusive(states[i]) && Exclusive(states[i + 1]);
        SectionExclusiveIff(states[i], calls[i], states[i + 1]);
      }
    }
  }

  /** Two vehicles that both pass their tests before either enters: no block ends up with both if and
      only if their lists have no block in common. */
  lemma TestThenEnterRaces(before: seq<BBlock>, middle: seq<BBlock>, after: seq<BBlock>,
                           ids: seq<int>, v: int, s: int, others: seq<int>, w: int, t: int)
    requires Exclusive(before) && v != w && AllFreeFor(before, ids, v) && AllFreeFor(before, others, w)
    requires Added(before, middle, ids, v, s) && Added(middle, after, others, w, t)
    ensures Exclusive(after) <==> forall b :: b in ids ==> b !in others
  {
    EntryExclusiveIff(before, middle, ids, v, s);
    EntryExclusiveIff(middle, after, others, w, t);
    hide HasFact;
    if b :| b in ids && b in others {
      assert HasFact(middle, b, v, s) && !FreeFor(middle, b, w);
    } else {
      forall b | b in others ensures FreeFor(middle, b, w) {
        assert FreeFor(before, b, w);
      }
    }
  }

  /** The facts of a single block. */
  lemma SingleBlock(id: int, entries: seq<AgvOccuSpirits>)
    ensures forall b, v, s :: HasFact([BBlock(id, entries)], b, v, s) <==> b == id && VehicleFact(entries, v, s)
  {
    hide VehicleFact;
    assert [BBlock(id, entries)][0] == BBlock(id, entries);
  }

  lemma OneVehicle(agv: int, spirit: int)
    ensures forall v, s :: VehicleFact([AgvOccuSpirits(agv, [spirit])], v, s) <==> v == agv && s == spirit
  {
    var entries := [AgvOccuSpirits(agv, [spirit])];
    assert entries[0].agv == agv && spirit in entries[0].spirits;
  }

  lemma TwoVehicles(v: int, s: int, w: int, t: int)
    ensures forall x, y :: VehicleFact([AgvOccuSpirits(v, [s]), AgvOccuSpirits(w, [t])], x, y) <==>
              (x == v && y == s) || (x == w && y == t)
  {
    var entries := [AgvOccuSpirits(v, [s]), AgvOccuSpirits(w, [t])];
    assert entries[0].agv == v && s in entries[0].spirits && entries[1].agv == w && t in entries[1].spirits;
  }

  lemma NoFacts()
    ensures forall b, v, s :: !HasFact([], b, v, s)
  {}

  /** A run of the code that ends with two vehicles in block 1: both test, then both enter. */
  lemma TwoVehiclesInOneBlock() returns (states: seq<seq<BBlock>>, calls: seq<Section>)
    ensures calls == [Test([1], 7, true), Test([1], 8, true), Put([1], 7, 11), Put([1], 8, 12)]
    ensures |states| == |calls| + 1 && states[0] == []
    ensures forall i :: 0 <= i < |calls| ==> Does(states[i], calls[i], states[i + 1])
    ensures !Exclusive(states[4])
  {
    var first, second := AgvOccuSpirits(7, [11]), AgvOccuSpirits(8, [12]);
    var one, two := [BBlock(1, [first])], [BBlock(1, [first, second])];
    states := [[], [], [], one, two];
    calls := [Test([1], 7, true), Test([1], 8, true), Put([1], 7, 11), Put([1], 8, 12)];
    NoFacts();
    SingleBlock(1, [first]);
    SingleBlock(1, [first, second]);
    OneVehicle(7, 11);
    TwoVehicles(7, 11, 8, 12);
    hide HasFact, VehicleFact;
    assert HasFact(two, 1, 7, 11) && HasFact(two, 1, 8, 12);
  }

  // ---------------------------------------------------------------- acquiring a line and its end

  /** What a vehicle needs before it may drive a line: the blocks of the line and those of its end. */
  datatype Wish = Wish(agv: int, lineIds: seq<int>, line: int, endIds: seq<int>, end: int)

  /** One round of the waiting loop: the line's blocks, then the end's; what was entered is kept even
      when the vehicle may not go yet. */
  ghost predicate Round(before: seq<BBlock>, w: Wish, canGo: bool, after: seq<BBlock>) {
    var lineFree := AllFreeFor(before, w.lineIds, w.agv);
    && (canGo <==> lineFree && AllFreeFor(before, w.endIds, w.agv))
    && forall b, v, s ::
         HasFact(after, b, v, s) <==>
           || HasFact(before, b, v, s)
           || (lineFree && v == w.agv && b in w.lineIds && s == w.line)
           || (canGo && v == w.agv && b in w.endIds && s == w.end)
  }

  /** A vehicle's own facts are no obstacle to it. */
  lemma OwnFactsDoNotBlock(before: seq<BBlock>, after: seq<BBlock>, ids: seq<int>, agv: int, spirit: int, wanted: seq<int>)
    requires Added(before, after, ids, agv, spirit)
    ensures AllFreeFor(after, wanted, agv) <==> AllFreeFor(before, wanted, agv)
  {
    hide HasFact;
    if AllFreeFor(before, wanted, agv) {
      forall b | b in wanted ensures FreeFor(after, b, agv) {
        assert FreeFor(before, b, agv);
      }
    }
    if AllFreeFor(after, wanted, agv) {
      forall b | b in wanted ensures FreeFor(before, b, agv) {
        assert FreeFor(after, b, agv);
      }
    }
  }

  lemma RoundKeepsExclusive(before: seq<BBlock>, w: Wish, canGo: bool, after: seq<BBlock>)
    requires Exclusive(before) && Round(before, w, canGo, after)
    ensures Exclusive(after)
  {
    hide HasFact;
    forall b, v, s, x, t | HasFact(after, b, v, s) && HasFact(after, b, x, t) ensures v == x {
      if AllFreeFor(before, w.lineIds, w.agv) && b in w.lineIds {
        assert FreeFor(before, b, w.agv);
      }
      if canGo && b in w.endIds {
        assert FreeFor(before, b, w.agv);
      }
    }
  }

  /** Each of the two vehicles holds, for its line, a block the other needs at its end. */
  ghost predicate Stuck(s: seq<BBlock>, a: Wish, b: Wish) {
    && a.agv != b.agv
    && (exists p :: p in a.lineIds && p in b.endIds && HasFact(s, p, a.agv, a.line))
    && (exists q :: q in b.lineIds && q in a.endIds && HasFact(s, q, b.agv, b.line))
  }

  /** One of the two entries of the waiting loop. */
  predicate EntryOf(c: Call, w: Wish) {
    c.Enter? && c.agv == w.agv && ((c.ids == w.lineIds && c.spirit == w.line) || (c.ids == w.endIds && c.spirit == w.end))
  }

  /** The entry into the blocks of the end. */
  predicate EndEntry(c: Call, w: Wish) {
    c.Enter? && c.agv == w.agv && c.ids == w.endIds
  }

  /** Two vehicles that both enter the blocks of their lines, each holding a block the other needs at
      its end, are stuck. */
  lemma LineEntriesStick(s0: seq<BBlock>, s1: seq<BBlock>, s2: seq<BBlock>, a: Wish, b: Wish, p: int, q: int)
    requires a.agv != b.agv && p in a.lineIds && p in b.endIds && q in b.lineIds && q in a.endIds
    requires Effect(s0, Enter(a.lineIds, a.agv, a.line, true), s1)
    requires Effect(s1, Enter(b.lineIds, b.agv, b.line, true), s2)
    ensures Stuck(s2, a, b)
  {
    hide HasFact, AllFreeFor;
    assert HasFact(s1, p, a.agv, a.line);
    assert HasFact(s2, p, a.agv, a.line) && HasFact(s2, q, b.agv, b.line);
  }

  lemma StuckStays(s: seq<BBlock>, c: Call, s': seq<BBlock>, a: Wish, b: Wish)
    requires Stuck(s, a, b) && Effect(s, c, s') && (EntryOf(c, a) || EntryOf(c, b))
    ensures Stuck(s', a, b)
    ensures EndEntry(c, a) || EndEntry(c, b) ==> !c.ok
  {
    hide HasFact;
    var p :| p in a.lineIds && p in b.endIds && HasFact(s, p, a.agv, a.line);
    var q :| q in b.lineIds && q in a.endIds && HasFact(s, q, b.agv, b.line);
    assert !FreeFor(s, p, b.agv) && !FreeFor(s, q, a.agv);
    assert HasFact(s', p, a.agv, a.line) && HasFact(s', q, b.agv, b.line);
  }

  /** While both only wait, in whatever order they try, neither ever gets the blocks of its end: the
      waiting loop holds what it entered. */
  lemma {:induction false} StuckForever(states: seq<seq<BBlock>>, calls: seq<Call>, a: Wish, b: Wish)
    requires |states| == |calls| + 1 && Stuck(states[0], a, b)
    requires forall i :: 0 <= i < |calls| ==> EntryOf(calls[i], a) || EntryOf(calls[i], b)
    requires forall i :: 0 <= i < |calls| ==> Effect(states[i], calls[i], states[i + 1])
    ensures forall i :: 0 <= i < |states| ==> Stuck(states[i], a, b)
    ensures forall i :: 0 <= i < |calls| && (EndEntry(calls[i], a) || EndEntry(calls[i], b)) ==> !calls[i].ok
  {
    hide Effect, Stuck;
    for i := 0 to |calls|
      invariant forall k :: 0 <= k <= i ==> Stuck(states[k], a, b)
      invariant forall k :: 0 <= k < i && (EndEntry(calls[k], a) || EndEntry(calls[k], b)) ==> !calls[k].ok
    {
      StuckStays(states[i], calls[i], states[i + 1], a, b);
    }
  }

  // ---------------------------------------------------------------- when the waiting loop gets through

  /** While the two vehicles only wait, facts only grow. */
  lemma WaitingGrows(s: seq<BBlock>, c: Call, s': seq<BBlock>, ids: seq<int>, agv: int)
    requires c.Enter? && Effect(s, c, s') && AllFreeFor(s', ids, agv)
    ensures AllFreeFor(s, ids, agv)
  {
    hide HasFact;
    forall b | b in ids ensures FreeFor(s, b, agv) {
      assert FreeFor(s', b, agv);
    }
  }

  /** A run of nothing but entries of the two waiting vehicles. */
  ghost predicate Waiting(states: seq<seq<BBlock>>, calls: seq<Call>, a: Wish, b: Wish) {
    && |states| == |calls| + 1
    && (forall i :: 0 <= i < |calls| ==> EntryOf(calls[i], a) || EntryOf(calls[i], b))
    && forall i :: 0 <= i < |calls| ==> Effect(states[i], calls[i], states[i + 1])
  }

  /** The run gets a vehicle into the blocks of its end. */
  ghost predicate GetsThrough(states: seq<seq<BBlock>>, calls: seq<Call>, w: Wish) {
    exists i :: 0 <= i < |calls| && EndEntry(calls[i], w) && calls[i].ok
  }

  lemma {:induction false} FreeBefore(states: seq<seq<BBlock>>, calls: seq<Call>, a: Wish, b: Wish, n: nat,
                                      ids: seq<int>, agv: int)
    requires Waiting(states, calls, a, b) && n < |states| && AllFreeFor(states[n], ids, agv)
    ensures AllFreeFor(states[0], ids, agv)
  {
    hide Effect, AllFreeFor;
    if n > 0 {
      assert Effect(states[n - 1], calls[n - 1], states[n - 1 + 1]);
      WaitingGrows(states[n - 1], calls[n - 1], states[n], ids, agv);
      FreeBefore(states, calls, a, b, n - 1, ids, agv);
    }
  }

  /** A state with exactly the new facts added. */
  function Entered(s: seq<BBlock>, ids: seq<int>, agv: int, spirit: int): seq<BBlock> {
    s + seq(|ids|, i requires 0 <= i < |ids| => BBlock(ids[i], [AgvOccuSpirits(agv, [spirit])]))
  }

  lemma EnteredAdds(s: seq<BBlock>, ids: seq<int>, agv: int, spirit: int)
    ensures Added(s, Entered(s, ids, agv, spirit), ids, agv, spirit)
  {
    var s', one := Entered(s, ids, agv, spirit), [AgvOccuSpirits(agv, [spirit])];
    OneVehicle(agv, spirit);
    hide VehicleFact;
    forall b, v, t ensures HasFact(s', b, v, t) <==> HasFact(s, b, v, t) || (b in ids && v == agv && t == spirit) {
      if HasFact(s, b, v, t) {
        var i :| 0 <= i < |s| && s[i].id == b && VehicleFact(s[i].agvSpirits, v, t);
        assert s'[i] == s[i];
      }
      if b in ids && v == agv && t == spirit {
        var i :| 0 <= i < |ids| && ids[i] == b;
        assert s'[|s| + i] == BBlock(b, one);
      }
    }
  }

  /** Whatever the state: two vehicles that only wait have a way to go on in which `a` gets the blocks of
      its end if and only if those are free for `a` now. */
  lemma GetsThroughIff(s: seq<BBlock>, a: Wish, b: Wish)
    ensures (exists states: seq<seq<BBlock>>, calls: seq<Call> ::
               Waiting(states, calls, a, b) && states[0] == s && GetsThrough(states, calls, a))
            <==> AllFreeFor(s, a.endIds, a.agv)
  {
    if states: seq<seq<BBlock>>, calls: seq<Call> :| Waiting(states, calls, a, b) && states[0] == s && GetsThrough(states, calls, a) {
      var i :| 0 <= i < |calls| && EndEntry(calls[i], a) && calls[i].ok;
      hide AllFreeFor;
      assert Effect(states[i], calls[i], states[i + 1]);
      FreeBefore(states, calls, a, b, i, a.endIds, a.agv);
    }
    if AllFreeFor(s, a.endIds, a.agv) {
      hide AllFreeFor, Added;
      EnteredAdds(s, a.endIds, a.agv, a.end);
      var states, calls := [s, Entered(s, a.endIds, a.agv, a.end)], [Enter(a.endIds, a.agv, a.end, true)];
      assert EndEntry(calls[0], a) && calls[0].ok;
      assert Waiting(states, calls, a, b) && states[0] == s && GetsThrough(states, calls, a);
    }
  }

  /** From the empty manager: vehicle 7 enters block 1 of its line and needs block 2 at its end, vehicle 8
      the other way round.  They are stuck, so neither ever gets through. */
  lemma StuckFromEmpty() returns (a: Wish, b: Wish, states: seq<seq<BBlock>>, calls: seq<Call>)
    ensures Waiting(states, calls, a, b) && states[0] == [] && |calls| == 2
    ensures Stuck(states[2], a, b)
    ensures !AllFreeFor(states[2], a.endIds, a.agv) && !AllFreeFor(states[2], b.endIds, b.agv)
  {
    a, b := Wish(7, [1], 11, [2], 21), Wish(8, [2], 12, [1], 22);
    var one, two := Entered([], [1], 7, 11), Entered(Entered([], [1], 7, 11), [2], 8, 12);
    states, calls := [[], one, two], [Enter([1], 7, 11, true), Enter([2], 8, 12, true)];
    EnteredAdds([], [1], 7, 11);
    EnteredAdds(one, [2], 8, 12);
    hide Entered;
    BothEnter(one);
    assert Effect(states[0], calls[0], states[1]) && Effect(states[1], calls[1], states[2]);
    hide Effect;
    LineEntriesStick([], one, two, a, b, 1, 2);
    StuckIsShut(two, a, b);
    StuckIsShut(two, b, a);
  }

  lemma BothEnter(one: seq<BBlock>)
    requires Added([], one, [1], 7, 11)
    ensures AllFreeFor([], [1], 7) && AllFreeFor(one, [2], 8)
  {
    NoFacts();
    hide HasFact;
  }

  lemma StuckIsShut(s: seq<BBlock>, a: Wish, b: Wish)
    requires Stuck(s, a, b)
    ensures !AllFreeFor(s, a.endIds, a.agv) && Stuck(s, b, a)
  {
    hide HasFact;
    var q :| q in b.lineIds && q in a.endIds && HasFact(s, q, b.agv, b.line);
    assert !FreeFor(s, q, a.agv);
  }
}
