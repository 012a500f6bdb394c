/**
 * The bookkeeping of the traffic-signal environment as pure functions: the
 * per-road staying-time tables, departures, the fairness reward, the phase
 * schedule of one macro-action, highway-speed recording and the observation.
 * The simulation engine is replaced by what it reports (a `Frame` per
 * simulation step); the class in module Environment is proved against these
 * functions.
 */
module Traffic {
  import opened Numbers
  import opened Dicts

  datatype Option<T> = None | Some(value: T)

  type VehicleId = string

  /** The four approach roads, in the order the environment lists them (n, e, s, w). */
  datatype Road = North | East | South | West

  const ROADS: seq<Road> := [North, East, South, West]

  function RoadIndex(r: Road): (i: nat)
    ensures i < 4 && ROADS[i] == r
  {
    match r
    case North => 0
    case East => 1
    case South => 2
    case West => 3
  }

  /** The two monitored highway segments. */
  datatype Highway = NorthHighway | SouthHighway

  /** A lane index on an approach road; each approach has three lanes. */
  type Lane = l: int | 0 <= l < 3

  /** What the simulation engine reports after one simulation step. */
  datatype Frame = Frame(
    onRoad: Road -> seq<VehicleId>,       // vehicles on an approach road
    onHighway: Highway -> seq<VehicleId>, // vehicles on a highway segment
    speedOf: VehicleId -> real,           // a vehicle's current speed
    laneOf: VehicleId -> Lane)            // a vehicle's lane index

  /** The engine's reports, by simulation step number since the session started. */
  type Engine = nat -> Frame

  /** What the engine reports after simulation step `n`. */
  function FrameAt(e: Engine, n: nat): Frame
  {
    e(n)
  }

  // ---------------------------------------------------------------------------
  // Staying-time tables

  /** Vehicle id -> number of simulation steps it has been seen on one road. */
  type Table = Dict<VehicleId, nat>

  type Tables = map<Road, Table>

  type Counts = map<Road, int>

  ghost predicate Covers<V>(m: map<Road, V>)
  {
    forall r: Road :: r in m
  }

  /**
   * The environment's invariant: a table and a counter for every road, no
   * vehicle twice in one table, and each counter equal to its table's size.
   */
  ghost predicate Tracked(st: Tables, nv: Counts)
  {
    forall r: Road :: r in st && r in nv && Distinct(st[r]) && nv[r] == |st[r]|
  }

  lemma Covered<V>(m: map<Road, V>)
    requires North in m && East in m && South in m && West in m
    ensures Covers(m)
  {
    forall r: Road ensures r in m {
      match r { case North => case East => case South => case West => }
    }
  }

  function EmptyTables(): (st: Tables)
    ensures Covers(st) && forall r :: st[r] == []
  {
    var st := map[North := [], East := [], South := [], West := []];
    Covered(st);
    st
  }

  function ZeroCounts(): (nv: Counts)
    ensures Covers(nv) && forall r :: nv[r] == 0
  {
    var nv := map[North := 0, East := 0, South := 0, West := 0];
    Covered(nv);
    nv
  }

  /**
   * `st` with the tables of the first `n` roads, in road order, taken from
   * `target`: the state part-way through a loop over the roads.
   */
  ghost function Overlay<V>(st: map<Road, V>, target: map<Road, V>, n: nat): map<Road, V>
    requires n <= 4 && Covers(target)
  {
    if n == 0 then st else Overlay(st, target, n - 1)[ROADS[n - 1] := target[ROADS[n - 1]]]
  }

  lemma {:induction false} OverlayLater<V>(st: map<Road, V>, target: map<Road, V>, n: nat, k: nat)
    requires n <= k < 4 && Covers(st) && Covers(target)
    ensures ROADS[k] in Overlay(st, target, n) && Overlay(st, target, n)[ROADS[k]] == st[ROADS[k]]
  {
    if n > 0 {
      OverlayLater(st, target, n - 1, k);
    }
  }

  lemma {:induction false} OverlayEarlier<V>(st: map<Road, V>, target: map<Road, V>, n: nat, k: nat)
    requires k < n <= 4 && Covers(st) && Covers(target)
    ensures ROADS[k] in Overlay(st, target, n) && Overlay(st, target, n)[ROADS[k]] == target[ROADS[k]]
  {
    if k < n - 1 {
      OverlayEarlier(st, target, n - 1, k);
      assert ROADS[n - 1] != ROADS[k];
    } else {
      OverlayLater(st, target, n - 1, k);
    }
  }

  lemma OverlayAll<V>(st: map<Road, V>, target: map<Road, V>)
    requires Covers(st) && Covers(target)
    ensures Overlay(st, target, 4) == target
  {
    var a := Overlay(st, target, 4);
    forall r: Road ensures r in a && a[r] == target[r] {
      OverlayEarlier(st, target, 4, RoadIndex(r));
    }
    assert a.Keys == target.Keys;
  }

  lemma TrackedCovers(st: Tables, nv: Counts)
    requires Tracked(st, nv)
    ensures Covers(st) && Covers(nv)
  {
  }

  /** The counter of each road that matches its table. */
  function Sizes(st: Tables): (nv: Counts)
    ensures nv.Keys == st.Keys && (Covers(st) ==> Covers(nv))
    ensures forall r :: r in st ==> nv[r] == |st[r]|
  {
    map r | r in st :: |st[r]|
  }

  /** Tables without repeated vehicles for every road, with their sizes as counters, are tracked. */
  lemma SizesTracked(st: Tables)
    requires Covers(st) && forall r :: Distinct(st[r])
    ensures Tracked(st, Sizes(st))
  {
  }

  lemma EmptyIsTracked()
    ensures Tracked(EmptyTables(), ZeroCounts())
  {
    forall r: Road ensures Distinct(EmptyTables()[r]) && ZeroCounts()[r] == |EmptyTables()[r]| {
    }
  }

  /** One sighting of `id`: a new vehicle is entered with 1, a tracked one gains a step. */
  function Bump(t: Table, id: VehicleId): (r: Table)
    ensures Keys(r) == Keys(t) + {id}
  {
    if id in Keys(t) then Put(t, id, Get(t, id) + 1) else Put(t, id, 1)
  }

  /** The sightings `ids` of one simulation step, processed in order. */
  function Tick(t: Table, ids: seq<VehicleId>): (r: Table)
    ensures forall k :: k in Keys(r) <==> k in Keys(t) || k in ids
  {
    if |ids| == 0 then t else Bump(Tick(t, ids[..|ids| - 1]), ids[|ids| - 1])
  }

  /** `update_staying_times`: every road's table after one simulation step. */
  function TickAll(st: Tables, f: Frame): (r: Tables)
    ensures r.Keys == st.Keys && (Covers(st) ==> Covers(r))
  {
    map r | r in st :: Tick(st[r], f.onRoad(r))
  }

  ghost predicate NoDuplicates(ids: seq<VehicleId>)
  {
    forall i, j :: 0 <= i < j < |ids| ==> ids[i] != ids[j]
  }

  /** A step never keys a vehicle twice, whatever the engine lists. */
  lemma {:induction false} TickDistinct(t: Table, ids: seq<VehicleId>)
    requires Distinct(t)
    ensures Distinct(Tick(t, ids))
  {
    if |ids| > 0 {
      TickDistinct(t, ids[..|ids| - 1]);
      BumpEffect(Tick(t, ids[..|ids| - 1]), ids[|ids| - 1]);
    }
  }

  /**
   * What one step does to a road's table when the engine lists each vehicle
   * once: a vehicle seen and not yet tracked is entered with 1, a tracked one
   * gains 1, and a vehicle not seen keeps its entry, or its absence, untouched.
   */
  lemma {:induction false} TickEffect(t: Table, ids: seq<VehicleId>, id: VehicleId)
    requires Distinct(t) && NoDuplicates(ids)
    ensures var m, m' := ToMap(t), ToMap(Tick(t, ids));
      && (id in ids ==> id in m' && m'[id] == if id in m then m[id] + 1 else 1)
      && (id !in ids ==> (id in m' <==> id in m) && (id in m ==> m'[id] == m[id]))
  {
    if |ids| > 0 {
      var init, last := ids[..|ids| - 1], ids[|ids| - 1];
      DropLast(ids, id);
      TickDistinct(t, init);
      TickEffect(t, init, id);
      BumpEffect(Tick(t, init), last);
    }
  }

  /** The sightings before the last one: still without repeats, and without the last. */
  lemma DropLast(ids: seq<VehicleId>, id: VehicleId)
    requires NoDuplicates(ids) && |ids| > 0
    ensures var init, last := ids[..|ids| - 1], ids[|ids| - 1];
      && NoDuplicates(init) && last !in init
      && (id in ids <==> id in init || id == last)
  {
    var init, last := ids[..|ids| - 1], ids[|ids| - 1];
    assert ids == init + [last];
    assert forall j :: 0 <= j < |init| ==> init[j] == ids[j] != last;
  }

  /** After a step every road's counter can again be the size of its table. */
  lemma TickAllTracked(st: Tables, nv: Counts, f: Frame)
    requires Tracked(st, nv)
    ensures Tracked(TickAll(st, f), Sizes(TickAll(st, f)))
  {
    var target := TickAll(st, f);
    TrackedCovers(st, nv);
    forall r ensures Distinct(target[r]) {
      TickDistinct(st[r], f.onRoad(r));
    }
    SizesTracked(target);
  }

  /**
   * One sighting: an untracked vehicle enters with 1 and the table grows by
   * one entry (so the road's counter goes up by one); a tracked vehicle gains
   * one step and the table keeps its size. No other entry changes.
   */
  lemma BumpEffect(t: Table, id: VehicleId)
    requires Distinct(t)
    ensures Distinct(Bump(t, id))
    ensures var m, m' := ToMap(t), ToMap(Bump(t, id));
      && id in m' && m'[id] == (if id in m then m[id] + 1 else 1)
      && forall k :: k != id ==> (k in m' <==> k in m) && (k in m ==> m'[k] == m[k])
    ensures |Bump(t, id)| == if id in ToMap(t) then |t| else |t| + 1
  {
    if id in Keys(t) {
      PutEffect(t, id, Get(t, id) + 1);
    } else {
      PutEffect(t, id, 1);
    }
  }

  /** `d[k] = v` on a dictionary without repeated keys, key by key. */
  lemma PutEffect(t: Table, id: VehicleId, v: nat)
    requires Distinct(t)
    ensures Distinct(Put(t, id, v))
    ensures var m, m' := ToMap(t), ToMap(Put(t, id, v));
      && id in m' && m'[id] == v
      && forall k :: k != id ==> (k in m' <==> k in m) && (k in m ==> m'[k] == m[k])
  {
  }

  // ---------------------------------------------------------------------------
  // Departures

  /** The vehicle ids on the four approach roads, as `remove_departed_vehicles` gathers them. */
  function PresentIds(f: Frame, n: nat): seq<VehicleId>
    requires n <= 4
  {
    if n == 0 then [] else PresentIds(f, n - 1) + f.onRoad(ROADS[n - 1])
  }

  /** A vehicle counts as present exactly when the engine lists it on one of the first `n` roads. */
  lemma {:induction false} PresentIdsOnRoads(f: Frame, n: nat, id: VehicleId)
    requires n <= 4
    ensures id in PresentIds(f, n) <==> exists i :: 0 <= i < n && id in f.onRoad(ROADS[i])
  {
    if n > 0 {
      PresentIdsOnRoads(f, n - 1, id);
      if id in f.onRoad(ROADS[n - 1]) {
        assert 0 <= n - 1 < n && id in f.onRoad(ROADS[n - 1]);
      }
    }
  }

  /** The items of a table whose vehicle is still present, in their order. */
  function Keep(t: Table, present: seq<VehicleId>): Table
  {
    if |t| == 0 then []
    else Keep(t[..|t| - 1], present) + (if t[|t| - 1].key in present then [t[|t| - 1]] else [])
  }

  /** The durations of the items whose vehicle has left, in table order. */
  function Departed(t: Table, present: seq<VehicleId>): seq<nat>
  {
    if |t| == 0 then []
    else Departed(t[..|t| - 1], present) + (if t[|t| - 1].key in present then [] else [t[|t| - 1].value])
  }

  lemma KeepSnoc(t: Table, j: nat, present: seq<VehicleId>)
    requires j < |t|
    ensures Keep(t[..j + 1], present) == Keep(t[..j], present) + (if t[j].key in present then [t[j]] else [])
    ensures Departed(t[..j + 1], present) == Departed(t[..j], present) + (if t[j].key in present then [] else [t[j].value])
  {
    TailAt(t, j);
  }

  lemma SplitAt<T>(before: seq<T>, t: seq<T>, j: nat)
    requires j < |t|
    ensures before + t[j..] == before + [t[j]] + t[j + 1..]
  {
    TailAt(t, j);
  }

  /**
   * One item of the snapshot loop of `remove_departed_vehicles`: the table
   * holds the kept prefix followed by the items not yet visited. A present
   * vehicle stays; an absent one is found with its duration, and deleting it
   * leaves the kept prefix followed by the rest.
   */
  lemma DepartStep(t: Table, j: nat, present: seq<VehicleId>)
    requires j < |t| && Distinct(Keep(t[..j], present) + t[j..])
    ensures var cur, x, kept, rest := Keep(t[..j], present) + t[j..], t[j], Keep(t[..j + 1], present), t[j + 1..];
      && (x.key in present ==> kept + rest == cur && Departed(t[..j + 1], present) == Departed(t[..j], present))
      && (x.key !in present ==>
            && x.key in Keys(cur) && Get(cur, x.key) == x.value
            && Remove(cur, x.key) == kept + rest
            && Departed(t[..j + 1], present) == Departed(t[..j], present) + [x.value])
  {
    var before, x, rest := Keep(t[..j], present), t[j], t[j + 1..];
    var cur := before + t[j..];
    KeepSnoc(t, j, present);
    SplitAt(before, t, j);
    if x.key !in present {
      ToMapAt(cur, |before|);
      RemoveItem(before, x, rest);
    }
  }

  /** Every entry either stays or has its duration archived. */
  lemma {:induction false} DepartCount(t: Table, present: seq<VehicleId>)
    ensures |Keep(t, present)| + |Departed(t, present)| == |t|
  {
    if |t| > 0 {
      DepartCount(t[..|t| - 1], present);
    }
  }

  /** No staying time is lost: what the table held is what it keeps plus what is archived. */
  lemma {:induction false} DepartConserves(t: Table, present: seq<VehicleId>)
    ensures Total(Values(Keep(t, present))) + Total(Departed(t, present)) == Total(Values(t))
  {
    if |t| > 0 {
      var p, x := t[..|t| - 1], t[|t| - 1];
      var kp, dp := Keep(p, present), Departed(p, present);
      DepartConserves(p, present);
      assert Values(t)[..|t| - 1] == Values(p);
      if x.key in present {
        assert Keep(t, present) == kp + [x];
        assert Values(kp + [x])[..|kp|] == Values(kp);
        assert Departed(t, present) == dp;
      } else {
        assert Keep(t, present) == kp;
        assert Departed(t, present) == dp + [x.value];
        assert (dp + [x.value])[..|dp|] == dp;
      }
    }
  }

  /** Exactly the vehicles absent from `present` leave; the others keep their durations. */
  lemma {:induction false} DepartEffect(t: Table, present: seq<VehicleId>)
    requires Distinct(t)
    ensures Distinct(Keep(t, present))
    ensures var m, m' := ToMap(t), ToMap(Keep(t, present));
      forall k :: (k in m' <==> k in m && k in present) && (k in m' ==> m'[k] == m[k])
  {
    if |t| > 0 {
      var p, x := t[..|t| - 1], t[|t| - 1];
      var kp := Keep(p, present);
      DepartEffect(p, present);
      assert x.key !in Keys(p) by {
        assert forall j :: 0 <= j < |p| ==> p[j].key == t[j].key != x.key;
      }
      assert ToMap(t) == ToMap(p)[x.key := x.value] by {
        assert t == p + [x];
        ToMapSnoc(p, x);
      }
      if x.key in present {
        assert Keep(t, present) == kp + [x];
        assert x.key !in Keys(kp);
        assert Distinct(kp + [x]) by {
          forall i | 0 <= i < |kp| ensures kp[i].key != x.key {
            assert kp[i].key in Keys(kp);
          }
        }
        ToMapSnoc(kp, x);
      } else {
        assert Keep(t, present) == kp;
      }
    }
  }

  /** Every road's table after departures. */
  function DepartAll(st: Tables, present: seq<VehicleId>): (r: Tables)
    ensures r.Keys == st.Keys && (Covers(st) ==> Covers(r))
  {
    map r | r in st :: Keep(st[r], present)
  }

  /** After departures every road's counter can again be the size of its table. */
  lemma DepartAllTracked(st: Tables, nv: Counts, present: seq<VehicleId>)
    requires Tracked(st, nv)
    ensures Tracked(DepartAll(st, present), Sizes(DepartAll(st, present)))
  {
    var target := DepartAll(st, present);
    TrackedCovers(st, nv);
    forall r ensures Distinct(target[r]) {
      DepartEffect(st[r], present);
    }
    SizesTracked(target);
  }

  /** The durations archived from the first `n` roads, in road order. */
  function DepartedUpTo(st: Tables, present: seq<VehicleId>, n: nat): seq<nat>
    requires n <= 4 && Covers(st)
  {
    if n == 0 then [] else DepartedUpTo(st, present, n - 1) + Departed(st[ROADS[n - 1]], present)
  }

  // ---------------------------------------------------------------------------
  // Reward

  /** `avg_staying_time_of_road`: 0 for a road whose counter is 0, else mean duration. */
  function AverageStayingTime(t: Table, count: int): (avg: real)
    ensures count == 0 ==> avg == 0.0
    ensures count != 0 ==> avg * (count as real) == Total(Values(t)) as real
  {
    if count == 0 then 0.0 else (Total(Values(t)) as real) / (count as real)
  }

  /** The four per-road averages, in road order. */
  function Averages(st: Tables, nv: Counts): (avgs: seq<real>)
    requires Covers(st) && Covers(nv)
    ensures |avgs| == 4
  {
    seq(4, i requires 0 <= i < 4 => AverageStayingTime(st[ROADS[i]], nv[ROADS[i]]))
  }

  /** Sum of the absolute deviations of `avgs` from `mean`. */
  function Deviation(avgs: seq<real>, mean: real): real
  {
    if |avgs| == 0 then 0.0 else Deviation(avgs[..|avgs| - 1], mean) + Abs(mean - avgs[|avgs| - 1])
  }

  /** `compute_reward` after departures: deviation of the four averages from their mean. */
  function Imbalance(avgs: seq<real>): (r: real)
    requires |avgs| == 4
    ensures r >= 0.0
  {
    DeviationNonNegative(avgs, Sum(avgs) / 4.0);
    Deviation(avgs, Sum(avgs) / 4.0)
  }

  lemma Unfold4(a: seq<real>, m: real)
    requires |a| == 4
    ensures Sum(a) == a[0] + a[1] + a[2] + a[3]
    ensures Deviation(a, m) == Abs(m - a[0]) + Abs(m - a[1]) + Abs(m - a[2]) + Abs(m - a[3])
  {
    var a3, a2, a1 := a[..3], a[..2], a[..1];
    assert a3[..2] == a2 && a2[..1] == a1 && a1[..0] == [];
    assert Sum(a1) == a[0] && Deviation(a1, m) == Abs(m - a[0]);
    assert Sum(a2) == a[0] + a[1];
    assert Sum(a3) == a[0] + a[1] + a[2];
    assert Deviation(a2, m) == Abs(m - a[0]) + Abs(m - a[1]);
    assert Deviation(a3, m) == Abs(m - a[0]) + Abs(m - a[1]) + Abs(m - a[2]);
  }

  /** A sum of absolute deviations is never negative. */
  lemma {:induction false} DeviationNonNegative(avgs: seq<real>, mean: real)
    ensures Deviation(avgs, mean) >= 0.0
  {
    if |avgs| > 0 {
      DeviationNonNegative(avgs[..|avgs| - 1], mean);
    }
  }

  /**
   * The imbalance is never negative, and it is zero exactly when the four
   * road averages are all equal (so the step reward, its negation, is zero
   * exactly then and negative otherwise).
   */
  lemma ImbalanceZeroIffBalanced(avgs: seq<real>)
    requires |avgs| == 4
    ensures Imbalance(avgs) >= 0.0
    ensures Imbalance(avgs) == 0.0 <==> avgs[0] == avgs[1] == avgs[2] == avgs[3]
  {
    Unfold4(avgs, Sum(avgs) / 4.0);
  }

  /** The worked example: averages 5, 15, 10, 10 have mean 10 and imbalance 10. */
  lemma ImbalanceExample()
    ensures Imbalance([5.0, 15.0, 10.0, 10.0]) == 10.0
  {
    Unfold4([5.0, 15.0, 10.0, 10.0], 10.0);
  }

  // ---------------------------------------------------------------------------
  // Phase schedule of one macro-action

  /** `step` keeps the current phase when there is no action, no previous action, or the same one. */
  predicate Keeps(action: Option<int>, prev: Option<int>)
  {
    action.None? || prev.None? || prev == action
  }

  function Repeat(p: int, n: nat): (r: seq<int>)
    ensures |r| == n && forall i :: 0 <= i < n ==> r[i] == p
  {
    if n == 0 then [] else Repeat(p, n - 1) + [p]
  }

  /** Holding a phase one step longer appends it once more to a trace. */
  lemma RepeatSnoc(trace: seq<int>, p: int, n: nat)
    ensures trace + Repeat(p, n + 1) == trace + Repeat(p, n) + [p]
  {
  }

  /** The phases `step` sets, one per simulation step, in order. */
  function PhaseSchedule(action: Option<int>, prev: Option<int>, phase: int, green: nat, yellow: nat): (r: seq<int>)
    ensures |r| == if Keeps(action, prev) then green else 2 * yellow + 2 * green
  {
    if Keeps(action, prev) then Repeat(phase, green)
    else Repeat(phase + 1, yellow) + Repeat(phase + 2, green) + Repeat(phase + 3, yellow) + Repeat((phase + 4) % 8, green)
  }

  /**
   * A kept action holds the current phase for `green` steps; a switch shows
   * phase+1 for `yellow` steps, phase+2 for `green`, phase+3 for `yellow`, and
   * only then the next direction's phase (phase+4) mod 8 for `green` steps.
   */
  lemma ScheduleShape(action: Option<int>, prev: Option<int>, phase: int, green: nat, yellow: nat)
    ensures var s := PhaseSchedule(action, prev, phase, green, yellow);
      && (Keeps(action, prev) ==> |s| == green && forall i :: 0 <= i < |s| ==> s[i] == phase)
      && (!Keeps(action, prev) ==>
            && |s| == 2 * yellow + 2 * green
            && (forall i :: 0 <= i < yellow ==> s[i] == phase + 1)
            && (forall i :: yellow <= i < yellow + green ==> s[i] == phase + 2)
            && (forall i :: yellow + green <= i < 2 * yellow + green ==> s[i] == phase + 3)
            && (forall i :: 2 * yellow + green <= i < |s| ==> s[i] == (phase + 4) % 8))
  {
  }

  // ---------------------------------------------------------------------------
  // Highway speeds

  type Speeds = Dict<VehicleId, real>

  /** `update_highway_speeds`: the speed of each vehicle seen for the first time. */
  function RecordSpeeds(d: Speeds, ids: seq<VehicleId>, speedOf: VehicleId -> real): (r: Speeds)
    ensures |d| <= |r| <= |d| + |ids| && r[..|d|] == d
  {
    if |ids| == 0 then d
    else
      var e := RecordSpeeds(d, ids[..|ids| - 1], speedOf);
      var id := ids[|ids| - 1];
      if id in Keys(e) then e else Put(e, id, speedOf(id))
  }

  /** Recording adds exactly the ids seen and keeps the keys distinct. */
  lemma {:induction false} RecordSpeedsKeys(d: Speeds, ids: seq<VehicleId>, speedOf: VehicleId -> real)
    requires Distinct(d)
    ensures Distinct(RecordSpeeds(d, ids, speedOf))
    ensures forall k :: k in Keys(RecordSpeeds(d, ids, speedOf)) <==> k in Keys(d) || k in ids
  {
    if |ids| > 0 {
      var init, id := ids[..|ids| - 1], ids[|ids| - 1];
      var e := RecordSpeeds(d, init, speedOf);
      RecordSpeedsKeys(d, init, speedOf);
      assert forall k :: k in ids <==> k in init || k == id;
      if id !in Keys(e) {
        assert RecordSpeeds(d, ids, speedOf) == Put(e, id, speedOf(id));
      }
    }
  }

  /**
   * A speed already recorded is never overwritten, and a vehicle seen for the
   * first time is recorded with its current speed.
   */
  lemma {:induction false} RecordSpeedsValues(d: Speeds, ids: seq<VehicleId>, speedOf: VehicleId -> real)
    requires Distinct(d)
    ensures var m, m' := ToMap(d), ToMap(RecordSpeeds(d, ids, speedOf));
      && (forall k :: k in m ==> k in m' && m'[k] == m[k])
      && (forall k :: k in ids && k !in m ==> k in m' && m'[k] == speedOf(k))
  {
    if |ids| > 0 {
      var init := ids[..|ids| - 1];
      RecordSpeedsValues(d, init, speedOf);
      RecordSpeedsKeys(d, init, speedOf);
      assert forall k :: k in ids <==> k in init || k == ids[|ids| - 1];
    }
  }

  lemma {:induction false} RecordSpeedsKnown(d: Speeds, ids: seq<VehicleId>, speedOf: VehicleId -> real)
    requires forall id :: id in ids ==> id in Keys(d)
    ensures RecordSpeeds(d, ids, speedOf) == d
  {
    if |ids| > 0 {
      RecordSpeedsKnown(d, ids[..|ids| - 1], speedOf);
      assert ids[|ids| - 1] in ids;
    }
  }

  /** Recording the same sightings twice is the same as recording them once. */
  lemma RecordSpeedsIdempotent(d: Speeds, ids: seq<VehicleId>, speedOf: VehicleId -> real)
    requires Distinct(d)
    ensures RecordSpeeds(RecordSpeeds(d, ids, speedOf), ids, speedOf) == RecordSpeeds(d, ids, speedOf)
  {
    RecordSpeedsKeys(d, ids, speedOf);
    RecordSpeedsKnown(RecordSpeeds(d, ids, speedOf), ids, speedOf);
  }

  /** Both highway segments are checked after every simulation step, north first. */
  function RecordBoth(d: Speeds, f: Frame): Speeds
  {
    RecordSpeeds(RecordSpeeds(d, f.onHighway(NorthHighway), f.speedOf), f.onHighway(SouthHighway), f.speedOf)
  }

  /** Checking both highways only appends: every speed recorded earlier stays, in its place. */
  lemma RecordBothKeepsOld(d: Speeds, f: Frame)
    ensures |d| <= |RecordBoth(d, f)| && RecordBoth(d, f)[..|d|] == d
  {
    var north := RecordSpeeds(d, f.onHighway(NorthHighway), f.speedOf);
    assert RecordBoth(d, f)[..|d|] == RecordBoth(d, f)[..|north|][..|d|];
  }

  /** `average_highway_speed`: defined only when a speed was recorded. */
  function AverageHighwaySpeed(d: Speeds): (avg: real)
    requires |d| > 0
    ensures avg * (|d| as real) == Sum(Values(d))
  {
    Sum(Values(d)) / (|d| as real)
  }

  /** The average lies between the slowest and the fastest recorded speed. */
  lemma AverageHighwaySpeedWithin(d: Speeds, lo: real, hi: real)
    requires |d| > 0
    requires forall i :: 0 <= i < |d| ==> lo <= d[i].value <= hi
    ensures lo <= AverageHighwaySpeed(d) <= hi
  {
    MeanWithin(Values(d), lo, hi);
  }

  // ---------------------------------------------------------------------------
  // Several simulation steps

  /** The tables after the engine's steps s0+1 .. s0+n. */
  function RunTables(st: Tables, engine: Engine, s0: nat, n: nat): (r: Tables)
    ensures r.Keys == st.Keys
  {
    if n == 0 then st else TickAll(RunTables(st, engine, s0, n - 1), FrameAt(engine, s0 + n))
  }

  /** The recorded highway speeds after the engine's steps s0+1 .. s0+n. */
  function RunSpeeds(d: Speeds, engine: Engine, s0: nat, n: nat): Speeds
  {
    if n == 0 then d else RecordBoth(RunSpeeds(d, engine, s0, n - 1), FrameAt(engine, s0 + n))
  }

  // ---------------------------------------------------------------------------
  // Observation

  /** How many of `ids` are in lane `l`. */
  function LaneCount(ids: seq<VehicleId>, laneOf: VehicleId -> Lane, l: Lane): (n: nat)
    ensures n <= |ids|
  {
    if |ids| == 0 then 0
    else LaneCount(ids[..|ids| - 1], laneOf, l) + (if laneOf(ids[|ids| - 1]) == l then 1 else 0)
  }

  /** `get_state`: bucket 3*i + l counts the vehicles on road i in lane l. */
  function Observation(f: Frame): (obs: seq<nat>)
    ensures |obs| == 12
  {
    var obs := seq(12, b requires 0 <= b < 12 => LaneCount(f.onRoad(ROADS[b / 3]), f.laneOf, b % 3));
    assert forall b :: 0 <= b < 12 ==> obs[b] == LaneCount(f.onRoad(ROADS[b / 3]), f.laneOf, b % 3) >= 0;
    obs
  }

  lemma {:induction false} LanesPartition(ids: seq<VehicleId>, laneOf: VehicleId -> Lane)
    ensures LaneCount(ids, laneOf, 0) + LaneCount(ids, laneOf, 1) + LaneCount(ids, laneOf, 2) == |ids|
  {
    if |ids| > 0 {
      LanesPartition(ids[..|ids| - 1], laneOf);
    }
  }

  /** Every vehicle on an approach road is counted in exactly one of its three buckets. */
  lemma ObservationCountsEveryVehicle(f: Frame, i: nat)
    requires i < 4
    ensures Observation(f)[3 * i] + Observation(f)[3 * i + 1] + Observation(f)[3 * i + 2] == |f.onRoad(ROADS[i])|
  {
    LanesPartition(f.onRoad(ROADS[i]), f.laneOf);
  }

  // ---------------------------------------------------------------------------
  // Episode summary

  /** `np.mean` of the archived staying times; NaN for an empty list. */
  datatype Mean = NaN | Value(value: real)

  function MeanOf(s: seq<nat>): (m: Mean)
    ensures m.NaN? <==> |s| == 0
    ensures m.Value? ==> m.value * (|s| as real) == Total(s) as real
  {
    if |s| == 0 then NaN else Value((Total(s) as real) / (|s| as real))
  }
}
