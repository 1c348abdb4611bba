/** The Dijkstra search over map lines, on an abstract graph of lines.

    `MapManager::getPath` searches lines, not stations: a line is reached when a vehicle that
    drives it to its end can be reached.  This module holds the search state (colour, father and
    distance of every line, and the queue of gray lines), the invariant every round of the search
    keeps, and the theorem that a state with an empty queue gives shortest walks. */
module LineSearch {

  /** `DISTANCE_INFINITY`, which is `INT_MAX`. */
  const INFINITY: int := 0x7FFF_FFFF

  datatype Color = White | Gray | Black

  /** `LineDijkInfo`; father 0 means "no father". */
  datatype LineInfo = LineInfo(father: int, distance: int, color: Color)

  type Infos = map<int, LineInfo>

  /** `std::multimap<int, int>`: pairs of a distance and a line in ascending order of distance. */
  datatype Entry = Entry(distance: int, line: int)

  type Queue = seq<Entry>

  // ---------------------------------------------------------------- graphs of lines

  /** The search problem: the lines in list order with their lengths, which line follows which,
      the lines that may be driven, and those of them that leave the start station. */
  datatype Graph = Graph(ids: seq<int>, len: map<int, nat>, adj: map<int, seq<int>>,
                         allowed: set<int>, sources: set<int>)

  function Successors(adj: map<int, seq<int>>, line: int): seq<int> {
    if line in adj then adj[line] else []
  }

  ghost predicate WellFormed(g: Graph) {
    && (forall i, j :: 0 <= i < j < |g.ids| ==> g.ids[i] != g.ids[j])
    && (forall k :: 0 <= k < |g.ids| ==> g.ids[k] in g.len)
    && (forall l :: l in g.len ==> l in g.ids)
    && (forall l :: l in g.len ==> l > 0)
    && g.sources <= g.allowed <= g.len.Keys
    && SumIn(g.ids, g.len, g.len.Keys) < INFINITY
  }

  /** Total length of the lines of `ids` that are in `s`. */
  ghost function SumIn(ids: seq<int>, len: map<int, nat>, s: set<int>): nat
    requires forall k :: 0 <= k < |ids| ==> ids[k] in len
  {
    if ids == [] then 0
    else (if ids[0] in s then len[ids[0]] else 0) + SumIn(ids[1..], len, s)
  }

  lemma {:induction false} SumInGrows(ids: seq<int>, len: map<int, nat>, s: set<int>, t: set<int>)
    requires forall k :: 0 <= k < |ids| ==> ids[k] in len
    requires s <= t
    ensures SumIn(ids, len, s) <= SumIn(ids, len, t)
  {
    if ids != [] {
      assert ids[0] in len;
      SumInGrows(ids[1..], len, s, t);
    }
  }

  lemma {:induction false} SumInAdd(ids: seq<int>, len: map<int, nat>, s: set<int>, x: int)
    requires forall k :: 0 <= k < |ids| ==> ids[k] in len
    requires forall i, j :: 0 <= i < j < |ids| ==> ids[i] != ids[j]
    requires x in ids && x !in s
    ensures SumIn(ids, len, s + {x}) == SumIn(ids, len, s) + len[x]
  {
    if ids[0] == x {
      SumInIgnores(ids[1..], len, s, x);
    } else {
      SumInAdd(ids[1..], len, s, x);
    }
  }

  lemma {:induction false} SumInIgnores(ids: seq<int>, len: map<int, nat>, s: set<int>, x: int)
    requires forall k :: 0 <= k < |ids| ==> ids[k] in len
    requires x !in ids
    ensures SumIn(ids, len, s + {x}) == SumIn(ids, len, s)
  {
    if ids != [] {
      SumInIgnores(ids[1..], len, s, x);
    }
  }

  // ---------------------------------------------------------------- walks

  ghost predicate Follows(g: Graph, a: int, b: int) {
    b in Successors(g.adj, a) && b in g.allowed
  }

  /** A drivable sequence of lines that starts with a source. */
  ghost predicate IsWalk(g: Graph, w: seq<int>) {
    && |w| > 0
    && w[0] in g.sources
    && forall i :: 0 <= i < |w| - 1 ==> Follows(g, w[i], w[i + 1])
  }

  ghost function WalkLength(len: map<int, nat>, w: seq<int>): nat
    requires forall i :: 0 <= i < |w| ==> w[i] in len
  {
    if w == [] then 0 else WalkLength(len, w[..|w| - 1]) + len[w[|w| - 1]]
  }

  lemma WalkLines(g: Graph, w: seq<int>)
    requires WellFormed(g) && IsWalk(g, w)
    ensures forall i :: 0 <= i < |w| ==> w[i] in g.allowed && w[i] in g.len
  {
    forall i | 0 <= i < |w| ensures w[i] in g.allowed {
      if i > 0 {
        assert Follows(g, w[i - 1], w[i - 1 + 1]);
      }
    }
  }

  lemma WalkExtends(g: Graph, w: seq<int>, l: int)
    requires WellFormed(g) && IsWalk(g, w) && Follows(g, w[|w| - 1], l)
    ensures IsWalk(g, w + [l])
    ensures forall i :: 0 <= i < |w + [l]| ==> (w + [l])[i] in g.len
    ensures forall i :: 0 <= i < |w| ==> w[i] in g.len
    ensures WalkLength(g.len, w + [l]) == WalkLength(g.len, w) + g.len[l]
  {
    WalkLines(g, w);
    var x := w + [l];
    assert x[..|x| - 1] == w;
    forall i | 0 <= i < |x| - 1 ensures Follows(g, x[i], x[i + 1]) {
      if i < |w| - 1 {
        assert Follows(g, w[i], w[i + 1]);
      }
    }
  }

  // ---------------------------------------------------------------- the queue

  ghost predicate Sorted(q: Queue) {
    forall i, j :: 0 <= i < j < |q| ==> q[i].distance <= q[j].distance
  }

  ghost predicate OncePerLine(q: Queue) {
    forall i, j :: 0 <= i < j < |q| ==> q[i].line != q[j].line
  }

  /** `multimap::insert`: behind all pairs with the same or a smaller distance. */
  function Insert(q: Queue, d: int, l: int): (r: Queue)
    ensures |r| == |q| + 1
    ensures Sorted(q) ==> Sorted(r)
    ensures forall e :: e in r <==> e in q || e == Entry(d, l)
  {
    if q == [] then [Entry(d, l)]
    else if q[|q| - 1].distance <= d then q + [Entry(d, l)]
    else
      var front := Insert(q[..|q| - 1], d, l);
      assert q == q[..|q| - 1] + [q[|q| - 1]];
      assert forall k :: 0 <= k < |front| ==> front[k] in front;
      front + [q[|q| - 1]]
  }

  lemma {:induction false} InsertOnce(q: Queue, d: int, l: int)
    requires OncePerLine(q) && forall e :: e in q ==> e.line != l
    ensures OncePerLine(Insert(q, d, l))
  {
    if q != [] && q[|q| - 1].distance > d {
      var front := q[..|q| - 1];
      InsertOnce(front, d, l);
      assert forall e :: e in front ==> e.line != q[|q| - 1].line;
      var r := Insert(front, d, l);
      assert forall k :: 0 <= k < |r| ==> r[k] in r;
    }
  }

  /** The queue without the entries of one line. */
  ghost function Without(q: Queue, l: int): (r: Queue)
    ensures forall e :: e in r <==> e in q && e.line != l
  {
    if q == [] then []
    else
      var front := q[..|q| - 1];
      assert q == front + [q[|q| - 1]];
      if q[|q| - 1].line == l then Without(front, l) else Without(front, l) + [q[|q| - 1]]
  }

  lemma {:induction false} WithoutSorted(q: Queue, l: int)
    requires Sorted(q)
    ensures Sorted(Without(q, l))
  {
    if q != [] {
      var front, last := q[..|q| - 1], q[|q| - 1];
      assert Sorted(front);
      assert forall e :: e in front ==> e.distance <= last.distance;
      hide Sorted;
      WithoutSorted(front, l);
      SortedBehind(Without(front, l), last);
    }
  }

  lemma SortedBehind(q: Queue, last: Entry)
    requires Sorted(q) && forall e :: e in q ==> e.distance <= last.distance
    ensures Sorted(q + [last])
  {
    assert forall i :: 0 <= i < |q| ==> q[i] in q;
  }

  lemma {:induction false} WithoutOnce(q: Queue, l: int)
    requires OncePerLine(q)
    ensures OncePerLine(Without(q, l))
  {
    if q != [] {
      var front, last := q[..|q| - 1], q[|q| - 1];
      assert OncePerLine(front);
      assert forall e :: e in front ==> e.line != last.line;
      hide OncePerLine;
      WithoutOnce(front, l);
      OnceBehind(Without(front, l), last);
    }
  }

  lemma OnceBehind(q: Queue, last: Entry)
    requires OncePerLine(q) && forall e :: e in q ==> e.line != last.line
    ensures OncePerLine(q + [last])
  {
    assert forall i :: 0 <= i < |q| ==> q[i] in q;
  }

  lemma {:induction false} WithoutAbsent(q: Queue, l: int)
    requires forall e :: e in q ==> e.line != l
    ensures Without(q, l) == q
  {
    if q != [] {
      var front, last := q[..|q| - 1], q[|q| - 1];
      assert q == front + [last];
      assert last in q;
      WithoutAbsent(front, l);
    }
  }

  /** The erase loop: one pass that drops every pair of the line. */
  method EraseLine(q: Queue, l: int) returns (r: Queue)
    ensures r == Without(q, l)
  {
    r := [];
    var i := 0;
    while i < |q|
      invariant 0 <= i <= |q|
      invariant r == Without(q[..i], l)
    {
      assert q[..i + 1][..i] == q[..i];
      if q[i].line != l {
        r := r + [q[i]];
      }
      i := i + 1;
    }
    assert q[..|q|] == q;
  }

  // ---------------------------------------------------------------- the search invariant

  /** The line has a finite distance: it is in the queue or was taken out of it. */
  ghost predicate Reached(infos: Infos, done: set<int>, l: int) {
    l in infos && (infos[l].color == Gray || l in done)
  }

  /** Colours: a drivable line is black exactly when the search finished it; lines that were
      blackened before the search are not drivable; a line that was not reached is at infinity. */
  ghost predicate Colors(g: Graph, infos: Infos, done: set<int>) {
    && infos.Keys == g.len.Keys
    && done <= g.allowed
    && (forall l :: l in infos && l in g.allowed ==> (infos[l].color == Black <==> l in done))
    && (forall l :: l in infos && l !in g.allowed ==> infos[l].color != Gray)
    && (forall l :: l in infos && !Reached(infos, done, l) ==> infos[l].distance == INFINITY)
  }

  /** The queue is the gray lines, each once and keyed by its distance. */
  ghost predicate QueueIsGray(infos: Infos, q: Queue) {
    && Sorted(q)
    && OncePerLine(q)
    && (forall e :: e in q ==> e.line in infos && infos[e.line].color == Gray && infos[e.line].distance == e.distance)
    && (forall l :: l in infos && infos[l].color == Gray ==> Entry(infos[l].distance, l) in q)
  }

  /** `w` is the walk that the fathers of `l` spell; every father is in `finished`. */
  ghost predicate FatherWalk(g: Graph, infos: Infos, walks: map<int, seq<int>>, finished: set<int>, l: int)
    requires l in infos && l in walks
  {
    var w := walks[l];
    && IsWalk(g, w)
    && w[|w| - 1] == l
    && (forall i :: 0 <= i < |w| ==> w[i] in g.len)
    && WalkLength(g.len, w) == infos[l].distance
    && if infos[l].father == 0 then w == [l]
       else infos[l].father in finished && infos[l].father in walks && w == walks[infos[l].father] + [l]
  }

  ghost predicate Fathers(g: Graph, infos: Infos, walks: map<int, seq<int>>, done: set<int>, finished: set<int>) {
    forall l :: Reached(infos, done, l) ==> l in walks && FatherWalk(g, infos, walks, finished, l)
  }

  /** Finished lines are no farther than queued ones. */
  ghost predicate DoneFirst(infos: Infos, done: set<int>)
    requires done <= infos.Keys
  {
    forall l, k :: l in done && k in infos && infos[k].color == Gray ==> infos[l].distance <= infos[k].distance
  }

  /** The edge from `l` to `b` was relaxed. */
  ghost predicate Relaxed(g: Graph, infos: Infos, done: set<int>, l: int, b: int)
    requires l in infos && g.allowed <= g.len.Keys
  {
    b in g.allowed ==> Reached(infos, done, b) && infos[b].distance <= infos[l].distance + g.len[b]
  }

  ghost predicate Closed(g: Graph, infos: Infos, done: set<int>)
    requires g.allowed <= g.len.Keys && done <= infos.Keys
  {
    && (forall s :: s in g.sources ==> Reached(infos, done, s) && s in g.len && infos[s].distance <= g.len[s])
    && (forall l, b :: l in done && b in Successors(g.adj, l) ==> Relaxed(g, infos, done, l, b))
  }

  /** Distances never exceed the total length of finished lines, so no sum overflows an int. */
  ghost predicate Bounded(g: Graph, infos: Infos, done: set<int>, finished: set<int>)
    requires WellFormed(g)
  {
    forall l :: Reached(infos, done, l) ==>
      l in g.len && 0 <= infos[l].distance <= SumIn(g.ids, g.len, finished + {l})
  }

  /** The invariant.  Between rounds `finished == done`; inside the round of line `s` it is
      `done + {s}`, because `s` may already be a father. */
  ghost predicate Inv(g: Graph, infos: Infos, q: Queue, walks: map<int, seq<int>>,
                      done: set<int>, finished: set<int>)
  {
    && WellFormed(g)
    && Colors(g, infos, done)
    && QueueIsGray(infos, q)
    && Fathers(g, infos, walks, done, finished)
    && DoneFirst(infos, done)
    && Closed(g, infos, done)
    && Bounded(g, infos, done, finished)
  }

  /** What the round of line `s` relies on: `s` is queued and nothing queued is nearer. */
  ghost predicate InRound(infos: Infos, s: int) {
    && s in infos && infos[s].color == Gray
    && forall k :: k in infos && infos[k].color == Gray ==> infos[s].distance <= infos[k].distance
  }

  /** A step of a round: reached lines stay reached and get no farther; finished lines and the
      line of the round keep their entries. */
  ghost predicate OnlyCloser(infos: Infos, infos': Infos, done: set<int>, s: int) {
    && infos.Keys == infos'.Keys
    && (forall l :: Reached(infos, done, l) ==> Reached(infos', done, l) && infos'[l].distance <= infos[l].distance)
    && (forall l :: l in infos && (l in done || l == s) ==> infos'[l] == infos[l])
  }

  // ---------------------------------------------------------------- before the first round

  /** What holds while the lines that leave the start station are put in the queue. */
  ghost predicate Seeding(g: Graph, infos: Infos, q: Queue, walks: map<int, seq<int>>) {
    && WellFormed(g)
    && Colors(g, infos, {})
    && QueueIsGray(infos, q)
    && (forall l :: l in infos ==> infos[l].father == 0)
    && (forall l :: l in infos && infos[l].color == Gray ==>
         l in g.sources && infos[l].distance == g.len[l] && l in walks && walks[l] == [l])
  }

  lemma Seed(g: Graph, infos: Infos, q: Queue, walks: map<int, seq<int>>, l: int,
             infos': Infos, q': Queue, walks': map<int, seq<int>>)
    requires Seeding(g, infos, q, walks)
    requires l in g.sources && l in infos && infos[l].color == White && l in g.len
    requires infos' == infos[l := infos[l].(distance := g.len[l], color := Gray)]
    requires q' == Insert(q, g.len[l], l)
    requires walks' == walks[l := [l]]
    ensures Seeding(g, infos', q', walks')
  {
    assert QueueIsGray(infos', q') by { SeedQueue(infos, q, l, g.len[l], infos', q'); }
    hide QueueIsGray;
  }

  lemma SeedQueue(infos: Infos, q: Queue, l: int, d: nat, infos': Infos, q': Queue)
    requires QueueIsGray(infos, q)
    requires l in infos && infos[l].color == White
    requires infos' == infos[l := infos[l].(distance := d, color := Gray)]
    requires q' == Insert(q, d, l)
    ensures QueueIsGray(infos', q')
  {
    assert forall e :: e in q ==> e.line != l;
    InsertOnce(q, d, l);
    assert Sorted(q') && OncePerLine(q');
    hide Sorted, OncePerLine, Insert;
    forall k | k in infos' && infos'[k].color == Gray ensures Entry(infos'[k].distance, k) in q' {
      if k != l {
        assert Entry(infos[k].distance, k) in q;
      }
    }
  }

  /** Once every source is queued the invariant of the search holds. */
  lemma Seeded(g: Graph, infos: Infos, q: Queue, walks: map<int, seq<int>>)
    requires Seeding(g, infos, q, walks)
    requires forall s :: s in g.sources ==> s in infos && infos[s].color == Gray
    ensures Inv(g, infos, q, walks, {}, {})
  {
    forall l | Reached(infos, {}, l)
      ensures l in walks && FatherWalk(g, infos, walks, {}, l)
      ensures l in g.len && 0 <= infos[l].distance <= SumIn(g.ids, g.len, {} + {l})
    {
      assert WalkLength(g.len, [l][..0]) == 0;
      assert WalkLength(g.len, [l]) == g.len[l];
      SumInAdd(g.ids, g.len, {}, l);
    }
  }

  // ---------------------------------------------------------------- steps of a round

  /** Everything the update of one neighbour `b` of the round's line `s` relies on. */
  ghost predicate CanUpdate(g: Graph, infos: Infos, q: Queue, walks: map<int, seq<int>>, done: set<int>, s: int, b: int) {
    && Inv(g, infos, q, walks, done, done + {s})
    && InRound(infos, s)
    && b != s && b in infos && b in g.len && s in walks
    && Follows(g, s, b)
    && infos[b].color != Black
    && (infos[b].color == White || infos[b].distance > infos[s].distance + g.len[b])
  }

  function Updated(infos: Infos, s: int, b: int, length: nat): Infos
    requires s in infos
  {
    infos[b := LineInfo(s, infos[s].distance + length, Gray)]
  }

  /** No distance the search computes leaves the range of int. */
  lemma NoOverflow(g: Graph, infos: Infos, done: set<int>, s: int, b: int)
    requires WellFormed(g) && Colors(g, infos, done) && Bounded(g, infos, done, done + {s})
    requires Reached(infos, done, s) && b in g.len && b in infos && b != s && b !in done
    ensures 0 <= infos[s].distance + g.len[b] <= SumIn(g.ids, g.len, done + {s} + {b}) < INFINITY
  {
    assert s in g.len && infos[s].distance <= SumIn(g.ids, g.len, done + {s} + {s});
    assert done + {s} + {s} == done + {s};
    SumInAdd(g.ids, g.len, done + {s}, b);
    assert done + {s} + {b} <= g.len.Keys;
    SumInGrows(g.ids, g.len, done + {s} + {b}, g.len.Keys);
  }

  lemma UpdateColors(g: Graph, infos: Infos, done: set<int>, s: int, b: int)
    requires WellFormed(g) && Colors(g, infos, done)
    requires s in infos && b in infos && b in g.allowed && b !in done
    ensures Colors(g, Updated(infos, s, b, g.len[b]), done)
  {}

  /** `q'` is `q` with the entry of line `b`, if any, replaced by one with distance `d`. */
  ghost predicate Requeued(q: Queue, q': Queue, d: int, b: int) {
    && Sorted(q')
    && OncePerLine(q')
    && forall e :: e in q' <==> (e in q && e.line != b) || e == Entry(d, b)
  }

  /** Erase the old pair, insert the new one. */
  lemma Requeue(q: Queue, d: int, b: int)
    requires Sorted(q) && OncePerLine(q)
    ensures Requeued(q, Insert(Without(q, b), d, b), d, b)
  {
    WithoutSorted(q, b);
    WithoutOnce(q, b);
    InsertOnce(Without(q, b), d, b);
  }

  lemma UpdateQueue(infos: Infos, q: Queue, s: int, b: int, length: nat, q': Queue)
    requires QueueIsGray(infos, q) && b in infos && s in infos
    requires Requeued(q, q', infos[s].distance + length, b)
    ensures QueueIsGray(Updated(infos, s, b, length), q')
  {
    var infos' := Updated(infos, s, b, length);
    forall e | e in q'
      ensures e.line in infos' && infos'[e.line].color == Gray && infos'[e.line].distance == e.distance
    {}
    forall l | l in infos' && infos'[l].color == Gray ensures Entry(infos'[l].distance, l) in q' {
      if l != b {
        assert Entry(infos[l].distance, l) in q;
      }
    }
  }

  lemma UpdateFathers(g: Graph, infos: Infos, walks: map<int, seq<int>>, done: set<int>, s: int, b: int)
    requires WellFormed(g) && Fathers(g, infos, walks, done, done + {s})
    requires Reached(infos, done, s) && b != s && b !in done && b in g.len && Follows(g, s, b)
    ensures s in walks
    ensures Fathers(g, Updated(infos, s, b, g.len[b]), walks[b := walks[s] + [b]], done, done + {s})
  {
    var infos', walks' := Updated(infos, s, b, g.len[b]), walks[b := walks[s] + [b]];
    assert FatherWalk(g, infos, walks, done + {s}, s);
    WalkExtends(g, walks[s], b);
    assert FatherWalk(g, infos', walks', done + {s}, b);
    forall l | Reached(infos', done, l)
      ensures l in walks' && FatherWalk(g, infos', walks', done + {s}, l)
    {
      if l != b {
        assert Reached(infos, done, l);
        hide IsWalk, WalkLength, Reached, Follows;
        assert FatherWalk(g, infos, walks, done + {s}, l);
      }
    }
  }

  lemma UpdateBounds(g: Graph, infos: Infos, done: set<int>, s: int, b: int)
    requires WellFormed(g) && Colors(g, infos, done) && Bounded(g, infos, done, done + {s})
    requires Reached(infos, done, s) && b != s && b in infos && b !in done && b in g.len
    ensures Bounded(g, Updated(infos, s, b, g.len[b]), done, done + {s})
  {
    NoOverflow(g, infos, done, s, b);
    var infos' := Updated(infos, s, b, g.len[b]);
    forall l | Reached(infos', done, l)
      ensures l in g.len && 0 <= infos'[l].distance <= SumIn(g.ids, g.len, done + {s} + {l})
    {
      assert l == b || Reached(infos, done, l);
    }
  }

  lemma UpdateIsCloser(g: Graph, infos: Infos, done: set<int>, s: int, b: int)
    requires InRound(infos, s) && done <= infos.Keys && DoneFirst(infos, done)
    requires b != s && b in infos && b in g.len && b !in done && infos[b].color != Black
    requires infos[b].color == White || infos[b].distance > infos[s].distance + g.len[b]
    requires g.allowed <= g.len.Keys
    ensures var infos' := Updated(infos, s, b, g.len[b]);
            && OnlyCloser(infos, infos', done, s)
            && InRound(infos', s)
            && DoneFirst(infos', done)
            && Relaxed(g, infos', done, s, b)
  {
    assert forall l :: l in done ==> infos[l].distance <= infos[s].distance;
  }

  lemma CanUpdateMeans(g: Graph, infos: Infos, q: Queue, walks: map<int, seq<int>>, done: set<int>, s: int, b: int)
    requires CanUpdate(g, infos, q, walks, done, s, b)
    ensures Reached(infos, done, s) && b in g.allowed && b !in done && done <= infos.Keys
  {}

  lemma UpdateState(g: Graph, infos: Infos, q: Queue, walks: map<int, seq<int>>, done: set<int>, s: int, b: int,
                    infos': Infos, q': Queue, walks': map<int, seq<int>>)
    requires CanUpdate(g, infos, q, walks, done, s, b)
    requires infos' == Updated(infos, s, b, g.len[b])
    requires Requeued(q, q', infos[s].distance + g.len[b], b)
    requires walks' == walks[b := walks[s] + [b]]
    ensures Bounded(g, infos', done, done + {s})
    ensures Colors(g, infos', done)
    ensures QueueIsGray(infos', q')
    ensures Fathers(g, infos', walks', done, done + {s})
  {
    hide Bounded, QueueIsGray, Fathers, Closed, DoneFirst, Colors, Requeued, Updated, InRound, Reached;
    CanUpdateMeans(g, infos, q, walks, done, s, b);
    UpdateBounds(g, infos, done, s, b);
    UpdateColors(g, infos, done, s, b);
    UpdateQueue(infos, q, s, b, g.len[b], q');
    UpdateFathers(g, infos, walks, done, s, b);
  }

  lemma UpdateEdges(g: Graph, infos: Infos, q: Queue, walks: map<int, seq<int>>, done: set<int>, s: int, b: int,
                    infos': Infos)
    requires CanUpdate(g, infos, q, walks, done, s, b)
    requires infos' == Updated(infos, s, b, g.len[b])
    ensures InRound(infos', s)
    ensures OnlyCloser(infos, infos', done, s)
    ensures Relaxed(g, infos', done, s, b)
    ensures done <= infos'.Keys && DoneFirst(infos', done)
    ensures g.allowed <= g.len.Keys && Closed(g, infos', done)
  {
    hide Bounded, QueueIsGray, Fathers, Closed, DoneFirst, Colors, OnlyCloser, Updated, InRound, Reached;
    CanUpdateMeans(g, infos, q, walks, done, s, b);
    UpdateIsCloser(g, infos, done, s, b);
    ClosedKept(g, infos, infos', done, s);
  }

  /** Updating a neighbour keeps the invariant and relaxes the edge to it. */
  lemma Update(g: Graph, infos: Infos, q: Queue, walks: map<int, seq<int>>, done: set<int>, s: int, b: int,
               infos': Infos, q': Queue, walks': map<int, seq<int>>)
    requires CanUpdate(g, infos, q, walks, done, s, b)
    requires infos' == Updated(infos, s, b, g.len[b])
    requires Requeued(q, q', infos[s].distance + g.len[b], b)
    requires walks' == walks[b := walks[s] + [b]]
    ensures Inv(g, infos', q', walks', done, done + {s})
    ensures InRound(infos', s)
    ensures OnlyCloser(infos, infos', done, s)
    ensures Relaxed(g, infos', done, s, b)
  {
    hide Bounded, QueueIsGray, Fathers, Closed, DoneFirst, Colors, Requeued, OnlyCloser, Updated, InRound, Reached;
    UpdateState(g, infos, q, walks, done, s, b, infos', q', walks');
    UpdateEdges(g, infos, q, walks, done, s, b, infos');
  }

  lemma ClosedKept(g: Graph, infos: Infos, infos': Infos, done: set<int>, s: int)
    requires g.allowed <= g.len.Keys && done <= infos.Keys
    requires Closed(g, infos, done) && OnlyCloser(infos, infos', done, s)
    ensures Closed(g, infos', done)
  {
    forall x | x in g.sources
      ensures Reached(infos', done, x) && x in g.len && infos'[x].distance <= g.len[x]
    {
      assert Reached(infos, done, x);
    }
    forall l, b | l in done && b in Successors(g.adj, l)
      ensures Relaxed(g, infos', done, l, b)
    {
      assert Relaxed(g, infos, done, l, b);
    }
  }

  lemma RelaxedKept(g: Graph, infos: Infos, infos': Infos, done: set<int>, s: int, b: int)
    requires g.allowed <= g.len.Keys && s in infos
    requires Relaxed(g, infos, done, s, b) && OnlyCloser(infos, infos', done, s)
    ensures Relaxed(g, infos', done, s, b)
  {}

  /** A neighbour that the search skips is relaxed: it may not be driven, or is finished, or is
      queued and not farther than it is. */
  lemma RelaxedAlready(g: Graph, infos: Infos, q: Queue, walks: map<int, seq<int>>, done: set<int>, s: int, b: int)
    requires Inv(g, infos, q, walks, done, done + {s}) && InRound(infos, s)
    requires b !in g.allowed || b !in infos || infos[b].color == Black
             || (infos[b].color == Gray && infos[b].distance <= infos[s].distance + g.len[b])
    ensures g.allowed <= g.len.Keys && Relaxed(g, infos, done, s, b)
  {
    hide QueueIsGray, Fathers, Bounded, SumIn;
  }

  lemma CloserReflexive(infos: Infos, done: set<int>, s: int)
    ensures OnlyCloser(infos, infos, done, s)
  {}

  /** The steps of a round leave the edges that were relaxed before relaxed. */
  lemma RelaxedStays(g: Graph, infos: Infos, infos': Infos, done: set<int>, s: int, adjs: seq<int>, n: nat)
    requires g.allowed <= g.len.Keys && s in infos && n <= |adjs|
    requires OnlyCloser(infos, infos', done, s)
    requires forall j :: 0 <= j < n ==> Relaxed(g, infos, done, s, adjs[j])
    ensures forall j :: 0 <= j < n ==> Relaxed(g, infos', done, s, adjs[j])
  {
    forall j | 0 <= j < n ensures Relaxed(g, infos', done, s, adjs[j]) {
      RelaxedKept(g, infos, infos', done, s, adjs[j]);
    }
  }

  ghost predicate IsWalkTo(g: Graph, w: seq<int>, l: int, d: int) {
    && IsWalk(g, w) && w[|w| - 1] == l
    && (forall i :: 0 <= i < |w| ==> w[i] in g.len)
    && WalkLength(g.len, w) == d
  }

  /** The distance of the line is that of a walk to it, and no walk to it is shorter. */
  ghost predicate IsFinal(g: Graph, infos: Infos, l: int)
    requires l in infos
  {
    && (exists w :: IsWalkTo(g, w, l, infos[l].distance))
    && forall w, d :: IsWalkTo(g, w, l, d) ==> infos[l].distance <= d
  }

  /** A walk ends at a finished line, or a line that is queued is no farther than its end. */
  ghost predicate EndsAtDone(g: Graph, infos: Infos, done: set<int>, w: seq<int>, d: int)
    requires |w| > 0
  {
    || (w[|w| - 1] in done && w[|w| - 1] in infos && infos[w[|w| - 1]].distance <= d)
    || exists k :: k in infos && infos[k].color == Gray && infos[k].distance <= d
  }

  lemma {:induction false} WalkMeetsQueue(g: Graph, infos: Infos, done: set<int>, w: seq<int>)
    requires WellFormed(g) && Colors(g, infos, done) && Closed(g, infos, done) && IsWalk(g, w)
    ensures forall i :: 0 <= i < |w| ==> w[i] in g.len
    ensures EndsAtDone(g, infos, done, w, WalkLength(g.len, w))
    decreases |w|
  {
    WalkLines(g, w);
    var front, last := w[..|w| - 1], w[|w| - 1];
    if front == [] {
      assert w == [last] && last in g.sources;
      assert Reached(infos, done, last);
      assert WalkLength(g.len, w) == g.len[last];
    } else {
      assert IsWalk(g, front) by {
        forall i | 0 <= i < |front| - 1 ensures Follows(g, front[i], front[i + 1]) {
          assert Follows(g, w[i], w[i + 1]);
        }
      }
      WalkMeetsQueue(g, infos, done, front);
      var p := front[|front| - 1];
      assert Follows(g, w[|w| - 2], w[|w| - 2 + 1]);
      if p in done {
        assert Relaxed(g, infos, done, p, last);
      }
    }
  }

  /** The front of the queue: its distance is attained by a walk and no walk is shorter. */
  lemma FrontIsFinal(g: Graph, infos: Infos, q: Queue, walks: map<int, seq<int>>, done: set<int>)
    requires Inv(g, infos, q, walks, done, done) && |q| > 0
    ensures q[0].line in infos && InRound(infos, q[0].line) && IsFinal(g, infos, q[0].line)
  {
    hide Bounded, DoneFirst, WellFormed, WalkLength, IsWalk, Closed;
    var s := q[0].line;
    assert q[0] in q;
    forall k | k in infos && infos[k].color == Gray ensures infos[s].distance <= infos[k].distance {
      assert Entry(infos[k].distance, k) in q;
    }
    assert Reached(infos, done, s);
    assert FatherWalk(g, infos, walks, done, s);
    assert IsWalkTo(g, walks[s], s, infos[s].distance);
    forall w, d | IsWalkTo(g, w, s, d) ensures infos[s].distance <= d {
      WalkMeetsQueue(g, infos, done, w);
    }
  }

  /** A round starts with the front of the queue, whose distance is final. */
  lemma StartRound(g: Graph, infos: Infos, q: Queue, walks: map<int, seq<int>>, done: set<int>)
    requires Inv(g, infos, q, walks, done, done) && |q| > 0
    ensures q[0].line in infos && InRound(infos, q[0].line) && IsFinal(g, infos, q[0].line)
    ensures Inv(g, infos, q, walks, done, done + {q[0].line})
  {
    FrontIsFinal(g, infos, q, walks, done);
    hide IsFinal, InRound;
    var s := q[0].line;
    forall l | Reached(infos, done, l)
      ensures l in walks && FatherWalk(g, infos, walks, done + {s}, l)
    {
      assert FatherWalk(g, infos, walks, done, l);
    }
    forall l | Reached(infos, done, l)
      ensures l in g.len && 0 <= infos[l].distance <= SumIn(g.ids, g.len, done + {s} + {l})
    {
      SumInGrows(g.ids, g.len, done + {l}, done + {s} + {l});
    }
  }

  function Blackened(infos: Infos, s: int): Infos
    requires s in infos
  {
    infos[s := infos[s].(color := Black)]
  }

  lemma FinishReached(infos: Infos, done: set<int>, s: int)
    requires s in infos && infos[s].color == Gray
    ensures forall l :: Reached(infos, done, l) <==> Reached(Blackened(infos, s), done + {s}, l)
  {}

  lemma FinishColors(g: Graph, infos: Infos, done: set<int>, s: int)
    requires WellFormed(g) && Colors(g, infos, done) && s in infos && infos[s].color == Gray
    ensures Colors(g, Blackened(infos, s), done + {s})
  {}

  lemma FinishQueue(infos: Infos, q: Queue, s: int)
    requires QueueIsGray(infos, q) && s in infos
    ensures QueueIsGray(Blackened(infos, s), Without(q, s))
  {
    var infos' := Blackened(infos, s);
    WithoutSorted(q, s);
    WithoutOnce(q, s);
    forall l | l in infos' && infos'[l].color == Gray ensures Entry(infos'[l].distance, l) in Without(q, s) {
      assert Entry(infos[l].distance, l) in q;
    }
  }

  lemma FinishFathers(g: Graph, infos: Infos, walks: map<int, seq<int>>, done: set<int>, s: int)
    requires s in infos && infos[s].color == Gray && Fathers(g, infos, walks, done, done + {s})
    ensures Fathers(g, Blackened(infos, s), walks, done + {s}, done + {s})
  {
    FinishReached(infos, done, s);
    forall l | Reached(Blackened(infos, s), done + {s}, l)
      ensures l in walks && FatherWalk(g, Blackened(infos, s), walks, done + {s}, l)
    {
      assert FatherWalk(g, infos, walks, done + {s}, l);
    }
  }

  lemma FinishClosed(g: Graph, infos: Infos, done: set<int>, s: int)
    requires g.allowed <= g.len.Keys && done <= infos.Keys && Closed(g, infos, done)
    requires s in infos && infos[s].color == Gray
    requires forall b :: b in Successors(g.adj, s) ==> Relaxed(g, infos, done, s, b)
    ensures Closed(g, Blackened(infos, s), done + {s})
  {
    var infos', done' := Blackened(infos, s), done + {s};
    forall l, b | l in done' && b in Successors(g.adj, l) ensures Relaxed(g, infos', done', l, b) {
      assert Relaxed(g, infos, done, l, b);
    }
    forall x | x in g.sources
      ensures Reached(infos', done', x) && x in g.len && infos'[x].distance <= g.len[x]
    {
      assert Reached(infos, done, x);
    }
  }

  lemma FinishBounds(g: Graph, infos: Infos, done: set<int>, s: int)
    requires WellFormed(g) && Bounded(g, infos, done, done + {s})
    requires s in infos && infos[s].color == Gray
    ensures Bounded(g, Blackened(infos, s), done + {s}, done + {s})
  {
    FinishReached(infos, done, s);
  }

  /** A round ends by blackening its line, once all its successors are relaxed. */
  lemma FinishRound(g: Graph, infos: Infos, q: Queue, walks: map<int, seq<int>>, done: set<int>, s: int)
    requires Inv(g, infos, q, walks, done, done + {s}) && InRound(infos, s)
    requires forall b :: b in Successors(g.adj, s) ==> Relaxed(g, infos, done, s, b)
    ensures s !in done
    ensures Inv(g, Blackened(infos, s), Without(q, s), walks, done + {s}, done + {s})
  {
    assert DoneFirst(Blackened(infos, s), done + {s});
    hide Bounded, QueueIsGray, Fathers, Closed, DoneFirst, Colors, Relaxed;
    FinishColors(g, infos, done, s);
    FinishQueue(infos, q, s);
    FinishFathers(g, infos, walks, done, s);
    FinishClosed(g, infos, done, s);
    FinishBounds(g, infos, done, s);
  }

  // ---------------------------------------------------------------- when the queue is empty

  ghost predicate NoGray(infos: Infos) {
    forall l :: l in infos ==> infos[l].color != Gray
  }

  /** With nothing queued, the last line of any walk is finished and no farther than the walk. */
  lemma {:induction false} NoWalkIsShorter(g: Graph, infos: Infos, done: set<int>, w: seq<int>)
    requires WellFormed(g) && Colors(g, infos, done) && Closed(g, infos, done) && NoGray(infos)
    requires IsWalk(g, w)
    ensures forall i :: 0 <= i < |w| ==> w[i] in g.len
    ensures w[|w| - 1] in done && infos[w[|w| - 1]].distance <= WalkLength(g.len, w)
    decreases |w|
  {
    WalkLines(g, w);
    var front, last := w[..|w| - 1], w[|w| - 1];
    if front == [] {
      assert w == [last] && last in g.sources;
      assert Reached(infos, done, last);
      assert WalkLength(g.len, w) == g.len[last];
    } else {
      assert IsWalk(g, front) by {
        forall i | 0 <= i < |front| - 1 ensures Follows(g, front[i], front[i + 1]) {
          assert Follows(g, w[i], w[i + 1]);
        }
      }
      NoWalkIsShorter(g, infos, done, front);
      var p := front[|front| - 1];
      assert Follows(g, w[|w| - 2], w[|w| - 2 + 1]);
      assert Relaxed(g, infos, done, p, last);
    }
  }

  /** The line a walk ends at is black and no farther than the walk. */
  ghost predicate NotFarther(g: Graph, infos: Infos, w: seq<int>) {
    && IsWalk(g, w) && (forall i :: 0 <= i < |w| ==> w[i] in g.len)
    && w[|w| - 1] in infos && infos[w[|w| - 1]].color == Black
    && infos[w[|w| - 1]].distance <= WalkLength(g.len, w)
  }

  /** The answer of the search: every distance that is not infinite is the length of a walk to the
      line, and no walk is shorter. */
  ghost predicate AreShortest(g: Graph, infos: Infos) {
    && infos.Keys == g.len.Keys
    && (forall w :: IsWalk(g, w) ==> NotFarther(g, infos, w))
    && forall l :: l in infos && infos[l].distance != INFINITY ==> exists w :: IsWalkTo(g, w, l, infos[l].distance)
  }

  /** A state that keeps the invariant and has nothing queued is the answer. */
  lemma SearchIsShortest(g: Graph, infos: Infos, walks: map<int, seq<int>>, done: set<int>)
    requires Inv(g, infos, [], walks, done, done)
    ensures AreShortest(g, infos)
  {
    hide Bounded, DoneFirst, SumIn, IsWalk, WalkLength;
    assert NoGray(infos);
    forall w | IsWalk(g, w) ensures NotFarther(g, infos, w) {
      WalkEndsBlack(g, infos, done, w);
    }
    forall l | l in infos && infos[l].distance != INFINITY ensures exists w :: IsWalkTo(g, w, l, infos[l].distance) {
      assert Reached(infos, done, l);
      assert FatherWalk(g, infos, walks, done, l);
      assert IsWalkTo(g, walks[l], l, infos[l].distance);
    }
  }

  lemma WalkEndsBlack(g: Graph, infos: Infos, done: set<int>, w: seq<int>)
    requires WellFormed(g) && Colors(g, infos, done) && Closed(g, infos, done) && NoGray(infos)
    requires IsWalk(g, w)
    ensures NotFarther(g, infos, w)
  {
    hide Closed, WellFormed, WalkLength;
    NoWalkIsShorter(g, infos, done, w);
    var l := w[|w| - 1];
    assert l in g.allowed && l in infos;
  }
}
