/**
 * The traffic-signal environment as a class whose methods update its fields
 * in place, each proved against the functions of module Traffic. The running
 * simulation of the current episode is the field `sim`: what the engine
 * reports after each simulation step of that episode.
 */
module Environment {
  import opened Numbers
  import opened Dicts
  import opened Traffic

  /** `get_state`: count the vehicles on each approach road into its three lane buckets. */
  method GetState(f: Frame) returns (state: seq<nat>)
    ensures state == Observation(f)
  {
    state := seq(12, _ => 0);
    for i := 0 to 4
      invariant |state| == 12
      invariant forall b :: 0 <= b < 3 * i ==> state[b] == Observation(f)[b]
      invariant forall b :: 3 * i <= b < 12 ==> state[b] == 0
    {
      var ids := f.onRoad(ROADS[i]);
      for j := 0 to |ids|
        invariant |state| == 12
        invariant forall b :: 0 <= b < 3 * i ==> state[b] == Observation(f)[b]
        invariant forall b :: 3 * i <= b < 3 * i + 3 ==> state[b] == LaneCount(ids[..j], f.laneOf, b - 3 * i)
        invariant forall b :: 3 * i + 3 <= b < 12 ==> state[b] == 0
      {
        var b := i * 3 + f.laneOf(ids[j]);
        state := state[b := state[b] + 1];
        assert ids[..j + 1][..j] == ids[..j];
      }
      assert ids[..|ids|] == ids;
      forall b | 3 * i <= b < 3 * i + 3
        ensures state[b] == Observation(f)[b]
      {
        BucketOf(b, i);
      }
    }
  }

  lemma BucketOf(b: int, i: int)
    requires 0 <= i && 3 * i <= b < 3 * i + 3
    ensures b / 3 == i && b % 3 == b - 3 * i
  {
  }

  /**
   * The inner loop of `update_staying_times` on one road's table `t` and
   * counter `count`: the sightings `ids` in order. A vehicle not in the table
   * enters with 1 and the counter goes up by one; a tracked vehicle gains one
   * step. The counter keeps matching the table's size.
   */
  method SightRoad(t: Table, count: int, ids: seq<VehicleId>) returns (t': Table, count': int)
    requires Distinct(t) && count == |t|
    ensures Distinct(t') && count' == |t'|
    ensures t' == Tick(t, ids)
  {
    t', count' := t, count;
    for j := 0 to |ids|
      invariant Distinct(t') && count' == |t'|
      invariant t' == Tick(t, ids[..j])
    {
      var id := ids[j];
      BumpEffect(t', id);
      if id !in Keys(t') {
        t' := Put(t', id, 1);
        count' := count' + 1;
      } else {
        t' := Put(t', id, Get(t', id) + 1);
      }
      assert ids[..j + 1][..j] == ids[..j];
    }
    assert ids[..|ids|] == ids;
  }

  /**
   * The inner loop of `remove_departed_vehicles` on one road's table `t` and
   * counter `count`, over a snapshot of the items: each vehicle not in
   * `present` has its duration collected in `departed`, is deleted, and the
   * counter goes down by one.
   */
  method DepartRoad(t: Table, count: int, present: seq<VehicleId>) returns (t': Table, count': int, departed: seq<nat>)
    requires Distinct(t) && count == |t|
    ensures Distinct(t') && count' == |t'|
    ensures t' == Keep(t, present) && departed == Departed(t, present)
  {
    t', count', departed := t, count, [];
    assert Keep(t[..0], present) + t[0..] == t;
    for j := 0 to |t|
      invariant Distinct(t') && count' == |t'|
      invariant t' == Keep(t[..j], present) + t[j..]
      invariant departed == Departed(t[..j], present)
    {
      var x := t[j];
      DepartStep(t, j, present);
      if x.key !in present {
        departed := departed + [Get(t', x.key)];
        t' := Remove(t', x.key);
        count' := count' - 1;
      }
    }
    assert t[..|t|] == t;
  }

  /** Road `i` is still untouched part-way through the loop of `update_staying_times`. */
  lemma TickRoadsStep(st: Tables, nv: Counts, f: Frame, i: nat)
    requires Tracked(st, nv) && i < 4
    ensures var road, target := ROADS[i], TickAll(st, f);
      && road in Overlay(st, target, i) && Overlay(st, target, i)[road] == st[road]
      && road in Overlay(nv, Sizes(target), i) && Overlay(nv, Sizes(target), i)[road] == nv[road]
      && Distinct(st[road]) && nv[road] == |st[road]|
  {
    TrackedCovers(st, nv);
    var target := TickAll(st, f);
    OverlayLater(st, target, i, i);
    OverlayLater(nv, Sizes(target), i, i);
  }

  /** Storing road `i`'s new table and its size moves the loop of `update_staying_times` on by one road. */
  lemma TickRoadsNext(st: Tables, nv: Counts, f: Frame, i: nat, table: Table)
    requires Tracked(st, nv) && i < 4
    requires table == Tick(st[ROADS[i]], f.onRoad(ROADS[i]))
    ensures var target := TickAll(st, f);
      && Overlay(st, target, i)[ROADS[i] := table] == Overlay(st, target, i + 1)
      && Overlay(nv, Sizes(target), i)[ROADS[i] := |table|] == Overlay(nv, Sizes(target), i + 1)
  {
  }

  /** After the last road the loop of `update_staying_times` has reached `TickAll`, still tracked. */
  lemma TickRoadsDone(st: Tables, nv: Counts, f: Frame)
    requires Tracked(st, nv)
    ensures var target := TickAll(st, f);
      && Overlay(st, target, 4) == target && Overlay(nv, Sizes(target), 4) == Sizes(target)
      && Tracked(target, Sizes(target))
  {
    TrackedCovers(st, nv);
    var target := TickAll(st, f);
    OverlayAll(st, target);
    OverlayAll(nv, Sizes(target));
    TickAllTracked(st, nv, f);
  }

  /** Road `i` is still untouched part-way through the loop of `remove_departed_vehicles`. */
  lemma DepartRoadsStep(st: Tables, nv: Counts, present: seq<VehicleId>, i: nat)
    requires Tracked(st, nv) && i < 4
    ensures var road, target := ROADS[i], DepartAll(st, present);
      && road in Overlay(st, target, i) && Overlay(st, target, i)[road] == st[road]
      && road in Overlay(nv, Sizes(target), i) && Overlay(nv, Sizes(target), i)[road] == nv[road]
      && Distinct(st[road]) && nv[road] == |st[road]|
  {
    TrackedCovers(st, nv);
    var target := DepartAll(st, present);
    OverlayLater(st, target, i, i);
    OverlayLater(nv, Sizes(target), i, i);
  }

  /** Storing road `i`'s kept items and their count moves the loop of `remove_departed_vehicles` on by one road. */
  lemma DepartRoadsNext(st: Tables, nv: Counts, present: seq<VehicleId>, i: nat, table: Table)
    requires Tracked(st, nv) && i < 4
    requires table == Keep(st[ROADS[i]], present)
    ensures var target := DepartAll(st, present);
      && Overlay(st, target, i)[ROADS[i] := table] == Overlay(st, target, i + 1)
      && Overlay(nv, Sizes(target), i)[ROADS[i] := |table|] == Overlay(nv, Sizes(target), i + 1)
  {
  }

  /** After the last road the loop of `remove_departed_vehicles` has reached `DepartAll`, still tracked. */
  lemma DepartRoadsDone(st: Tables, nv: Counts, present: seq<VehicleId>)
    requires Tracked(st, nv)
    ensures var target := DepartAll(st, present);
      && Overlay(st, target, 4) == target && Overlay(nv, Sizes(target), 4) == Sizes(target)
      && Tracked(target, Sizes(target))
  {
    TrackedCovers(st, nv);
    var target := DepartAll(st, present);
    OverlayAll(st, target);
    OverlayAll(nv, Sizes(target));
    DepartAllTracked(st, nv, present);
  }

  /** The loop over the roads of `update_staying_times`, on the tables and counters. */
  method TickRoads(st: Tables, nv: Counts, f: Frame) returns (st': Tables, nv': Counts)
    requires Tracked(st, nv)
    ensures Tracked(st', nv')
    ensures st' == TickAll(st, f)
  {
    TrackedCovers(st, nv);
    ghost var target := TickAll(st, f);
    st', nv' := st, nv;
    for i := 0 to 4
      invariant st' == Overlay(st, target, i)
      invariant nv' == Overlay(nv, Sizes(target), i)
    {
      var road := ROADS[i];
      TickRoadsStep(st, nv, f, i);
      var table, count := SightRoad(st'[road], nv'[road], f.onRoad(road));
      TickRoadsNext(st, nv, f, i, table);
      st' := st'[road := table];
      nv' := nv'[road := count];
    }
    TickRoadsDone(st, nv, f);
  }

  /**
   * The loop over the roads of `remove_departed_vehicles`, on the tables and
   * counters; `departed` collects the archived durations in road order.
   */
  method DepartRoads(st: Tables, nv: Counts, present: seq<VehicleId>) returns (st': Tables, nv': Counts, departed: seq<nat>)
    requires Tracked(st, nv)
    ensures Tracked(st', nv')
    ensures st' == DepartAll(st, present) && departed == DepartedUpTo(st, present, 4)
  {
    TrackedCovers(st, nv);
    ghost var target := DepartAll(st, present);
    st', nv', departed := st, nv, [];
    for i := 0 to 4
      invariant st' == Overlay(st, target, i)
      invariant nv' == Overlay(nv, Sizes(target), i)
      invariant departed == DepartedUpTo(st, present, i)
    {
      var road := ROADS[i];
      DepartRoadsStep(st, nv, present, i);
      var table, count, gone := DepartRoad(st'[road], nv'[road], present);
      DepartRoadsNext(st, nv, present, i, table);
      st' := st'[road := table];
      nv' := nv'[road := count];
      departed := departed + gone;
    }
    DepartRoadsDone(st, nv, present);
  }

  /**
   * The arithmetic of `compute_reward` once departures are removed: the four
   * road averages and their sum, the mean, then the absolute deviations.
   */
  method Reward(st: Tables, nv: Counts) returns (reward: real)
    requires Covers(st) && Covers(nv)
    ensures reward == Imbalance(Averages(st, nv))
    ensures reward >= 0.0
  {
    var avgs: seq<real> := [];
    var overall := 0.0;
    for i := 0 to 4
      invariant avgs == Averages(st, nv)[..i]
      invariant overall == Sum(avgs)
    {
      var avg := AverageStayingTime(st[ROADS[i]], nv[ROADS[i]]);
      PrefixSnoc(Averages(st, nv), i);
      SumSnoc(avgs, avg);
      avgs := avgs + [avg];
      overall := overall + avg;
    }
    assert avgs == Averages(st, nv);
    overall := overall / 4.0;
    reward := 0.0;
    for i := 0 to 4
      invariant reward == Deviation(avgs[..i], overall)
    {
      PrefixSnoc(avgs, i);
      reward := reward + Abs(overall - avgs[i]);
    }
    assert avgs[..4] == avgs;
    DeviationNonNegative(avgs, overall);
  }

  /** A session with no simulation started yet: nothing is on any road. */
  function NoSimulation(): Engine
  {
    s => Frame(r => [], h => [], id => 0.0, id => 0)
  }

  /**
   * The loop of `update_highway_speeds` over the vehicles `ids` seen on one
   * highway: a vehicle not yet keyed gets its current speed, a keyed one
   * keeps the speed first recorded.
   */
  method RecordFirstSpeeds(d: Speeds, ids: seq<VehicleId>, speedOf: VehicleId -> real) returns (d': Speeds)
    requires Distinct(d)
    ensures Distinct(d')
    ensures d' == RecordSpeeds(d, ids, speedOf)
  {
    d' := d;
    for j := 0 to |ids|
      invariant Distinct(d')
      invariant d' == RecordSpeeds(d, ids[..j], speedOf)
    {
      assert ids[..j + 1][..j] == ids[..j];
      if ids[j] !in Keys(d') {
        d' := Put(d', ids[j], speedOf(ids[j]));
      }
    }
    assert ids[..|ids|] == ids;
  }

  class TrafficEnv {
    const timeSteps: int
    const greenTime: nat
    const yellowTime: nat

    /** The simulation started by the last `reset`, by simulation step number. */
    var sim: Engine

    var averageStayingTimePerVehicle: map<nat, Mean>
    var episode: nat
    var sumoStep: nat
    var prevAction: Option<int>
    var stayingTimes: Tables
    var numVehicles: Counts
    var stayingTimePerVehicle: seq<nat>
    var highwaySpeeds: Speeds

    /** Every road has a table and a counter equal to its size; no vehicle is keyed twice. */
    ghost predicate Valid()
      reads this
    {
      Tracked(stayingTimes, numVehicles) && Distinct(highwaySpeeds)
    }

    /**
     * `__init__`: no episode and no simulation yet. The tables, which the
     * source first creates in `reset`, start empty here.
     */
    constructor(timeSteps: int, greenTime: nat, yellowTime: nat)
      ensures Valid()
      ensures this.timeSteps == timeSteps && this.greenTime == greenTime && this.yellowTime == yellowTime
      ensures averageStayingTimePerVehicle == map[] && episode == 0 && sumoStep == 0
    {
      this.timeSteps := timeSteps;
      this.greenTime := greenTime;
      this.yellowTime := yellowTime;
      sim := NoSimulation();
      averageStayingTimePerVehicle := map[];
      episode := 0;
      sumoStep := 0;
      prevAction := None;
      stayingTimes := EmptyTables();
      numVehicles := ZeroCounts();
      stayingTimePerVehicle := [];
      highwaySpeeds := [];
      new;
      EmptyIsTracked();
    }

    /** `update_staying_times`: one sighting per vehicle id on each road, roads in order. */
    method UpdateStayingTimes(f: Frame)
      requires Valid()
      modifies this`stayingTimes, this`numVehicles
      ensures Valid()
      ensures stayingTimes == TickAll(old(stayingTimes), f)
    {
      stayingTimes, numVehicles := TickRoads(stayingTimes, numVehicles, f);
    }

    /**
     * `remove_departed_vehicles`: every tracked vehicle absent from all four
     * roads is deleted from its table, its duration is appended to the archive
     * and its road's counter goes down by one.
     */
    method RemoveDepartedVehicles(f: Frame)
      requires Valid()
      modifies this`stayingTimes, this`numVehicles, this`stayingTimePerVehicle
      ensures Valid()
      ensures stayingTimes == DepartAll(old(stayingTimes), PresentIds(f, 4))
      ensures stayingTimePerVehicle == old(stayingTimePerVehicle) + DepartedUpTo(old(stayingTimes), PresentIds(f, 4), 4)
    {
      var present: seq<VehicleId> := [];
      for i := 0 to 4
        invariant present == PresentIds(f, i)
      {
        present := present + f.onRoad(ROADS[i]);
      }
      var departed;
      stayingTimes, numVehicles, departed := DepartRoads(stayingTimes, numVehicles, present);
      stayingTimePerVehicle := stayingTimePerVehicle + departed;
    }

    /** `update_highway_speeds`: record the speed of each vehicle seen on `h` for the first time. */
    method UpdateHighwaySpeeds(h: Highway, f: Frame)
      requires Distinct(highwaySpeeds)
      modifies this`highwaySpeeds
      ensures Distinct(highwaySpeeds)
      ensures highwaySpeeds == RecordSpeeds(old(highwaySpeeds), f.onHighway(h), f.speedOf)
    {
      highwaySpeeds := RecordFirstSpeeds(highwaySpeeds, f.onHighway(h), f.speedOf);
    }

    /** The state `n` simulation steps after step `s0`, from tables `st` and speeds `hs`. */
    ghost predicate RanFrom(st: Tables, hs: Speeds, s0: nat, n: nat)
      reads this
    {
      && Valid()
      && sumoStep == s0 + n
      && stayingTimes == RunTables(st, sim, s0, n)
      && highwaySpeeds == RunSpeeds(hs, sim, s0, n)
    }

    /**
     * One pass of the loops in `step` after the phase is set: advance the
     * simulation, check both highways, north first, then count sightings.
     */
    method Advance(ghost st: Tables, ghost hs: Speeds, ghost s0: nat, ghost n: nat)
      requires RanFrom(st, hs, s0, n)
      modifies this`sumoStep, this`stayingTimes, this`numVehicles, this`highwaySpeeds
      ensures RanFrom(st, hs, s0, n + 1)
    {
      ghost var tables, speeds := stayingTimes, highwaySpeeds;
      sumoStep := sumoStep + 1;
      var f := FrameAt(sim, sumoStep);
      assert f == FrameAt(sim, s0 + (n + 1));
      UpdateHighwaySpeeds(NorthHighway, f);
      UpdateHighwaySpeeds(SouthHighway, f);
      assert highwaySpeeds == RecordBoth(speeds, f);
      UpdateStayingTimes(f);
      assert stayingTimes == TickAll(tables, f);
    }

    /** Hold phase `p` for `n` simulation steps, appending it to the trace once per step. */
    method Hold(p: int, n: nat, ghost st: Tables, ghost hs: Speeds, ghost s0: nat, trace: seq<int>) returns (trace': seq<int>)
      requires RanFrom(st, hs, s0, |trace|)
      modifies this`sumoStep, this`stayingTimes, this`numVehicles, this`highwaySpeeds
      ensures trace' == trace + Repeat(p, n)
      ensures RanFrom(st, hs, s0, |trace'|)
    {
      trace' := trace;
      for i := 0 to n
        invariant trace' == trace + Repeat(p, i)
        invariant RanFrom(st, hs, s0, |trace'|)
      {
        Advance(st, hs, s0, |trace'|);
        RepeatSnoc(trace, p, i);
        trace' := trace' + [p];
      }
    }

    /**
     * `compute_reward`: remove departed vehicles, then the sum of the absolute
     * deviations of the four road averages from their mean.
     */
    method ComputeReward(f: Frame) returns (reward: real)
      requires Valid()
      modifies this`stayingTimes, this`numVehicles, this`stayingTimePerVehicle
      ensures Valid()
      ensures stayingTimes == DepartAll(old(stayingTimes), PresentIds(f, 4))
      ensures stayingTimePerVehicle == old(stayingTimePerVehicle) + DepartedUpTo(old(stayingTimes), PresentIds(f, 4), 4)
      ensures reward == Imbalance(Averages(stayingTimes, numVehicles))
      ensures reward >= 0.0
    {
      RemoveDepartedVehicles(f);
      TrackedCovers(stayingTimes, numVehicles);
      reward := Reward(stayingTimes, numVehicles);
    }

    /**
     * The phase-setting part of `step`: hold the current phase for a kept
     * action, otherwise walk through yellow, green, yellow and the next
     * direction's green. Every phase set advances the simulation one step.
     * The action is then remembered as the previous one.
     */
    method RunSchedule(action: Option<int>, phase: int) returns (phases: seq<int>)
      requires Valid()
      modifies this`sumoStep, this`stayingTimes, this`numVehicles, this`highwaySpeeds, this`prevAction
      ensures phases == PhaseSchedule(action, old(prevAction), phase, greenTime, yellowTime)
      ensures Valid() && sumoStep == old(sumoStep) + |phases|
      ensures stayingTimes == RunTables(old(stayingTimes), sim, old(sumoStep), |phases|)
      ensures highwaySpeeds == RunSpeeds(old(highwaySpeeds), sim, old(sumoStep), |phases|)
      ensures prevAction == action
    {
      ghost var st, hs, s0 := stayingTimes, highwaySpeeds, sumoStep;
      phases := [];
      if Keeps(action, prevAction) {
        phases := Hold(phase, greenTime, st, hs, s0, phases);
        assert phases == Repeat(phase, greenTime);
      } else {
        phases := Hold(phase + 1, yellowTime, st, hs, s0, phases);
        assert phases == Repeat(phase + 1, yellowTime);
        phases := Hold(phase + 2, greenTime, st, hs, s0, phases);
        phases := Hold(phase + 3, yellowTime, st, hs, s0, phases);
        phases := Hold((phase + 4) % 8, greenTime, st, hs, s0, phases);
      }
      prevAction := action;
    }

    /**
     * `step`: run the macro-action's phase schedule, one simulation step per
     * phase set, then reward the new state and observe it. `phase` is the
     * light's current phase and `minExpected` the engine's count of vehicles
     * still expected, both read from the engine.
     */
    method Step(action: Option<int>, phase: int, minExpected: int)
      returns (obs: seq<nat>, reward: real, terminated: bool, truncated: bool, phases: seq<int>)
      requires Valid() && episode > 0
      modifies this`sumoStep, this`stayingTimes, this`numVehicles, this`highwaySpeeds
      modifies this`prevAction, this`stayingTimePerVehicle
      ensures Valid()
      ensures phases == PhaseSchedule(action, old(prevAction), phase, greenTime, yellowTime)
      ensures sumoStep == old(sumoStep) + |phases|
      ensures highwaySpeeds == RunSpeeds(old(highwaySpeeds), sim, old(sumoStep), |phases|)
      ensures var ran, present := RunTables(old(stayingTimes), sim, old(sumoStep), |phases|), PresentIds(FrameAt(sim, sumoStep), 4);
        && stayingTimes == DepartAll(ran, present)
        && stayingTimePerVehicle == old(stayingTimePerVehicle) + DepartedUpTo(ran, present, 4)
      ensures prevAction == action
      ensures reward == -Imbalance(Averages(stayingTimes, numVehicles)) && reward <= 0.0
      ensures !terminated
      ensures truncated <==> sumoStep >= timeSteps || minExpected <= 0
      ensures obs == Observation(FrameAt(sim, sumoStep))
    {
      phases := RunSchedule(action, phase);
      obs, reward, truncated := Conclude(minExpected);
      terminated := false;
    }

    /**
     * The tail of `step`, once the schedule has run: reward the state at the
     * current simulation step (negated), decide truncation, observe.
     */
    method Conclude(minExpected: int) returns (obs: seq<nat>, reward: real, truncated: bool)
      requires Valid()
      modifies this`stayingTimes, this`numVehicles, this`stayingTimePerVehicle
      ensures Valid()
      ensures var present := PresentIds(FrameAt(sim, sumoStep), 4);
        && stayingTimes == DepartAll(old(stayingTimes), present)
        && stayingTimePerVehicle == old(stayingTimePerVehicle) + DepartedUpTo(old(stayingTimes), present, 4)
      ensures reward == -Imbalance(Averages(stayingTimes, numVehicles)) && reward <= 0.0
      ensures truncated <==> sumoStep >= timeSteps || minExpected <= 0
      ensures obs == Observation(FrameAt(sim, sumoStep))
    {
      var f := FrameAt(sim, sumoStep);
      var r := ComputeReward(f);
      reward := -r;
      truncated := false;
      if sumoStep >= timeSteps || minExpected <= 0 {
        truncated := true;
      }
      obs := GetState(f);
    }

    /**
     * `reset`: close the previous episode's session (never on the first
     * reset) and archive the mean staying time of its departed vehicles under
     * its number, then start episode+1 on the new simulation `next` with
     * everything emptied. Returns the first observation, the archive, and
     * whether a session was closed.
     */
    method Reset(next: Engine) returns (obs: seq<nat>, averages: map<nat, Mean>, closed: bool)
      modifies this
      ensures Valid()
      ensures closed == (old(episode) != 0)
      ensures averageStayingTimePerVehicle ==
        if closed then old(averageStayingTimePerVehicle)[old(episode) := MeanOf(old(stayingTimePerVehicle))]
        else old(averageStayingTimePerVehicle)
      ensures episode == old(episode) + 1 && sim == next
      ensures prevAction.None? && sumoStep == 0
      ensures stayingTimes == EmptyTables() && numVehicles == ZeroCounts()
      ensures stayingTimePerVehicle == [] && highwaySpeeds == []
      ensures obs == Observation(FrameAt(next, 0)) && averages == averageStayingTimePerVehicle
    {
      closed := false;
      if episode != 0 {
        closed := true;
        averageStayingTimePerVehicle := averageStayingTimePerVehicle[episode := MeanOf(stayingTimePerVehicle)];
      }
      episode := episode + 1;
      sim := next;
      prevAction := None;
      stayingTimes := EmptyTables();
      numVehicles := ZeroCounts();
      stayingTimePerVehicle := [];
      sumoStep := 0;
      highwaySpeeds := [];
      EmptyIsTracked();
      obs := GetState(FrameAt(sim, sumoStep));
      averages := averageStayingTimePerVehicle;
    }
  }
}
