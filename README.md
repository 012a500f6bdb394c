# Traffic-signal control with deep Q-learning: a Dafny model

This project models the decision and bookkeeping core of a reinforcement-learning
controller for one signalised intersection. It has two parts.

**The signal environment** (`TrafficEnv` in `environment.py`). The environment
keeps, for each of the four approach roads, a table from vehicle id to the number
of simulation steps the vehicle has been seen there. It also keeps a counter per
road. Each macro-action (`step`) sets a schedule of traffic-light phases, one per
simulation step:

- a kept action holds the current phase for `green_time` steps;
- a switched action shows phase+1 for `yellow_time` steps, phase+2 for
  `green_time`, phase+3 for `yellow_time`, then (phase+4) mod 8 for `green_time`.

After every simulation step the environment records first-seen highway speeds
and counts sightings. After the schedule it removes departed vehicles, archiving
their durations. It then returns a reward: minus the sum of the absolute
deviations of the four per-road average staying times from their mean.

**The learning agent** (`DQNAgent` in `dqn.py`). The agent has these parts:

- a replay memory bounded at 10000 transitions, oldest evicted first;
- an epsilon-greedy `act`;
- a `replay` that trains only once enough transitions are remembered, samples
  without replacement and regresses onto `reward + (1 - done)·γ·max next-Q`;
- a soft update of the target network towards the online network.

Files:

- `numbers.dfy` (module `Numbers`): absolute value, sums, and the bound on a mean.
- `dicts.dfy` (module `Dicts`): a Python `dict` as an insertion-ordered sequence of
  items, with assignment, lookup and deletion specified against the map it denotes.
- `traffic.dfy` (module `Traffic`): the environment's behaviour as pure functions,
  with lemmas. It covers per-step table updates, departures, the reward, the phase
  schedule, highway speeds and the observation.
- `environment.dfy` (module `Environment`): class `TrafficEnv`. Its methods update
  its fields in place, with loops over roads and vehicle ids, and each is proved
  against the functions of `Traffic`.
- `dqn.dfy` (module `Dqn`): the replay memory, action choice, training targets,
  sampling, the soft update, and class `DQNAgent`, which holds its network
  parameters in arrays.

The simulator and the neural network are replaced by what they report:

- A `Frame` is what the SUMO simulator reports after one simulation step: the
  vehicle ids on each approach road and highway segment, each vehicle's speed and
  each vehicle's lane.
- An `Engine` gives the frame after each simulation step of an episode.
- `reset` receives the new episode's engine. The phases that `step` sets are
  returned as a trace.
- The Q-network is an opaque `QNet` from parameters and observation to scores.
- The optimizer step is an opaque `Optimizer`.
- Random draws are parameters.

## Model

| member | source | states |
|---|---|---|
| Environment.TrafficEnv.constructor | environment.py:52-54 | No episode has started yet, the archive of per-episode means is empty and the step counter is zero; the staying-time invariant already holds |
| Environment.GetState | environment.py:151-161 | The observation counts, in bucket 3·i + lane, the vehicles the engine reports on approach road i in that lane |
| Traffic.Observation | environment.py:151-161 | Twelve buckets; bucket 3·i + l holds the number of road i's vehicles in lane l |
| Traffic.LaneCount | environment.py:158-159 | How many of a road's vehicles are in one lane, never more than the road holds |
| Traffic.LanesPartition | environment.py:157-159 | The three lane buckets of a road together count every vehicle on that road exactly once |
| Traffic.ObservationCountsEveryVehicle | environment.py:155-159 | The three buckets of road i of the observation sum to the number of vehicles on road i |
| Environment.SightRoad | environment.py:204-209 | One road's sighting loop leaves the table the function `Tick` describes, still without a repeated id, with the counter equal to the table's size |
| Traffic.Bump | environment.py:205-209 | One sighting, which enters a new vehicle with 1 or adds 1 to a tracked one; the keys become the old keys plus that vehicle |
| Traffic.Tick | environment.py:204-209 | One road's sightings in order; afterwards a vehicle is keyed exactly when it was keyed before or was seen |
| Traffic.TickAll | environment.py:202-209 | Every road's table after one simulation step, over the same roads as before |
| Traffic.BumpEffect | environment.py:205-209 | One sighting enters an untracked vehicle with 1 and grows the table by one, or adds 1 to a tracked vehicle and keeps the size; every other entry is unchanged |
| Traffic.TickEffect | environment.py:203-209 | After one step, each vehicle seen on the road is at 1 if it was untracked and at its old value + 1 otherwise; an unseen vehicle keeps its entry or its absence |
| Traffic.TickDistinct | environment.py:205-207 | Sightings never key a vehicle twice in a road's table, even when the engine lists an id twice |
| Traffic.TickAllTracked | environment.py:202-209 | After a step every road still has its table, without repeated ids, and the counters can equal the table sizes |
| Environment.TickRoads | environment.py:202-209 | The loop over the four roads produces `TickAll` of the old tables and keeps every counter equal to its table's size |
| Environment.TrafficEnv.UpdateStayingTimes | environment.py:198-209 | The tables become `TickAll` of the old tables for the current frame, and the invariant (counter = table size, no repeated id) is kept |
| Traffic.PresentIds | environment.py:187-190 | The four roads' id lists joined in road order, as the departure test gathers them |
| Traffic.PresentIdsOnRoads | environment.py:187-190 | A vehicle counts as present exactly when the engine lists it on one of the four approach roads |
| Traffic.Keep | environment.py:191-196 | The items whose vehicle is present, in table order; `DepartEffect` states what this does to the table's mapping |
| Traffic.Departed | environment.py:192-194 | The durations of the items whose vehicle is absent, in table order; `DepartCount` and `DepartConserves` relate them to `Keep` |
| Traffic.DepartAll | environment.py:191-196 | Every road's table after departures, over the same roads as before |
| Traffic.DepartStep | environment.py:192-196 | In the snapshot loop, a present vehicle stays; an absent one is found with its duration, deleting it leaves the items kept so far followed by the unvisited ones, and its duration joins the departed list |
| Environment.DepartRoad | environment.py:191-196 | One road's loop keeps exactly the items whose vehicle is present, in order, and collects the durations of the others in table order; the counter follows the table size |
| Traffic.DepartEffect | environment.py:187-196 | A tracked vehicle stays iff it is among the ids of all four roads, so a vehicle seen on another road is kept; kept vehicles keep their durations |
| Traffic.DepartCount | environment.py:192-196 | Every table entry is either kept or archived, so the counter goes down once per deletion and never below zero |
| Traffic.DepartConserves | environment.py:193-195 | The durations kept plus the durations archived equal the durations the table held |
| Traffic.DepartAllTracked | environment.py:191-196 | After departures every road still has its table without repeated ids |
| Environment.DepartRoads | environment.py:191-196 | The loop over the roads yields `DepartAll` and archives the departed durations road by road, in order, keeping counter = table size |
| Environment.TrafficEnv.RemoveDepartedVehicles | environment.py:183-196 | The union of the four roads' ids decides departure; the tables become `DepartAll` of the old ones and the archive list grows by exactly the departed durations |
| Traffic.AverageStayingTime | environment.py:211-215 | The average is 0 when the road's counter is 0; otherwise average × counter equals the sum of the durations |
| Traffic.Averages | environment.py:171-174 | Four averages, one per road in road order, each the road's `AverageStayingTime` |
| Traffic.Deviation | environment.py:178-179 | The sum of the absolute deviations of the averages from a mean; `DeviationNonNegative` bounds it |
| Traffic.Imbalance | environment.py:176-181 | The deviation of the four averages from their mean (their sum divided by 4), which is never negative |
| Environment.Reward | environment.py:169-181 | The two loops compute the imbalance of the four road averages (sum of absolute deviations from their mean), which is never negative |
| Traffic.DeviationNonNegative | environment.py:178-179 | A sum of absolute deviations is never negative |
| Traffic.ImbalanceZeroIffBalanced | environment.py:176-181 | The imbalance is ≥ 0, and it is 0 exactly when all four road averages are equal |
| Traffic.ImbalanceExample | environment.py:167-181 | Averages 5, 15, 10, 10 give imbalance 10 |
| Environment.TrafficEnv.ComputeReward | environment.py:163-181 | Departures are removed first, then the reward is the imbalance of the new averages, which is ≥ 0 |
| Environment.TrafficEnv.Advance | environment.py:68-72 | One simulation step: the counter goes up by one, both highways are checked (north first), then sightings are counted for the new frame |
| Environment.TrafficEnv.Hold | environment.py:66-72 | Holding phase p for n steps appends p n times to the trace and advances the simulation n steps |
| Traffic.Keeps | environment.py:62 | The light keeps its phase when there is no action, no previous action, or the same action again |
| Traffic.Repeat | environment.py:66-67 | n copies of one phase |
| Traffic.PhaseSchedule | environment.py:62-107 | The phases `step` sets, one per simulation step: `green` of them when the phase is kept, 2·yellow + 2·green on a switch |
| Traffic.ScheduleShape | environment.py:62-107 | A kept action sets the current phase `green` times; a switch sets phase+1, phase+2, phase+3 and (phase+4) mod 8 for yellow, green, yellow, green steps, 2·yellow + 2·green in all |
| Environment.TrafficEnv.RunSchedule | environment.py:62-109 | The phases set are the schedule for the action and the previous action; every phase set advances the tables and speeds by one frame; `prev_action` becomes the action |
| Environment.TrafficEnv.Step | environment.py:60-118 | The schedule is run, the counter grows by its length, departures are removed at the final frame, the reward is minus the imbalance (so ≤ 0), `terminated` is false, and `truncated` holds iff the counter reached `time_steps` or the engine expects no more vehicles |
| Environment.TrafficEnv.Conclude | environment.py:110-118 | The reward is minus the imbalance after departures, the truncation test is the source's, and the observation is of the current frame |
| Traffic.EmptyTables | environment.py:136 | Every road gets an empty table |
| Traffic.ZeroCounts | environment.py:137 | Every road's counter is 0 |
| Traffic.MeanOf | environment.py:128 | The archived mean is NaN for an empty list; otherwise mean × length equals the sum |
| Environment.TrafficEnv.Reset | environment.py:120-143 | A session is closed and its mean archived under the old episode number only when the episode is not 0; the episode goes up by one; phase memory, tables, counters, archive list, step counter and speeds are emptied |
| Environment.RecordFirstSpeeds | environment.py:220-222 | The loop over a highway's vehicles gives `RecordSpeeds` of the old speeds, still without repeated ids |
| Environment.TrafficEnv.UpdateHighwaySpeeds | environment.py:217-222 | The speeds become `RecordSpeeds` of the old ones for the vehicles on that highway |
| Traffic.RecordSpeeds | environment.py:217-222 | One highway's sightings: the old items stay unchanged and in place, and at most one item per sighting is appended |
| Traffic.RecordBoth | environment.py:70-71 | Both highways' sightings recorded, north first |
| Traffic.RecordBothKeepsOld | environment.py:70-71 | Checking both highways only appends: every speed recorded earlier stays unchanged, in its place |
| Traffic.RecordSpeedsKeys | environment.py:220-222 | The recorded ids are exactly the old ones plus the ids seen, with no id twice |
| Traffic.RecordSpeedsValues | environment.py:221-222 | An existing speed is never overwritten, and a first-seen vehicle gets its current speed |
| Traffic.RecordSpeedsKnown | environment.py:221 | When every id seen is already recorded, nothing changes |
| Traffic.RecordSpeedsIdempotent | environment.py:217-222 | Recording the same sightings twice equals recording them once |
| Traffic.AverageHighwaySpeed | environment.py:224-228 | The average times the number of recorded speeds equals their sum |
| Traffic.AverageHighwaySpeedWithin | environment.py:224-228 | The average highway speed lies between the lowest and highest recorded speed |
| Dicts.Put | environment.py:206-209 | `d[k] = v` gives `d`'s mapping with k set to v; an existing key keeps its position and every other item is unchanged, while a new key is appended last |
| Dicts.Remove | environment.py:195 | `del d[k]` gives `d`'s mapping without k and shrinks the dictionary by one |
| Dicts.RemoveItem | environment.py:195 | Deleting an item leaves the items before and after it, in order |
| Dicts.Values | environment.py:215 | `values()` lists the values in insertion order |
| Dqn.Window | dqn.py:37 | A deque bounded at 10000 keeps the newest elements, at most 10000 of them, in order |
| Dqn.BoundedAppend | dqn.py:48-49 | `remember` puts the transition last; below capacity the earlier entries stay as they were; at capacity the oldest is evicted first |
| Dqn.RememberAll | dqn.py:48-49 | Successive `remember` calls, never keeping more than 10000 transitions |
| Dqn.RememberAllIsWindow | dqn.py:48-49 | Any run of `remember` calls leaves exactly the newest 10000 transitions ever remembered, oldest first |
| Dqn.RememberAllFits | dqn.py:37 | While within capacity, every remembered transition is kept |
| Dqn.DQNAgent.Remember | dqn.py:48-49 | The memory becomes the bounded append of the transition and stays within 10000 |
| Dqn.ArgMax | dqn.py:46 | The chosen index holds the largest score, and every earlier index holds a strictly smaller score (first index on ties) |
| Dqn.DQNAgent.Act | dqn.py:40-46 | The action is below `action_size`: the random pick when the draw is ≤ epsilon, otherwise the first index of the highest online Q-value |
| Dqn.MaxOf | dqn.py:64 | The maximum is one of the scores and no score exceeds it |
| Dqn.Bootstrap | dqn.py:65 | A terminal transition's target is its reward; otherwise it is reward + γ·(some next score), and with γ ≥ 0 it is at least reward + γ·(any next score) |
| Dqn.Targets | dqn.py:63-65 | A terminal transition's target is its reward; any other's is its reward plus γ times the largest of the target network's scores for its next state |
| Dqn.IsSample | dqn.py:54 | k positions below the memory's length, no position drawn twice |
| Dqn.Batch | dqn.py:54 | One transition per drawn position, each taken from memory |
| Dqn.BatchSubMultiset | dqn.py:54 | A draw without replacement takes each transition at most as often as memory holds it: the batch is a sub-multiset of memory |
| Dqn.SampleFits | dqn.py:52-54 | A draw without replacement cannot take more transitions than memory holds, which is what the length guard ensures |
| Dqn.DQNAgent.Replay | dqn.py:51-70 | With fewer than `batch_size` transitions nothing changes; otherwise the online parameters become the optimizer's result for the sampled batch and its targets; memory and target parameters never change |
| Dqn.SoftUpdate | dqn.py:72-74 | Each new target parameter differs from its online parameter by (1 − τ) times the old difference |
| Dqn.SoftUpdateFixedPoint | dqn.py:72-74 | When target and online parameters agree, the update leaves them as they are |
| Dqn.SoftUpdateHard | dqn.py:74 | With rate 1 the update copies the online parameters |
| Dqn.SoftUpdateBetween | dqn.py:74 | With a rate in [0, 1] each new parameter lies between its old target and online values |
| Dqn.SoftUpdatesGap | dqn.py:72-74 | After n updates against fixed online parameters, every gap is the initial gap times (1 − τ)^n |
| Dqn.SoftUpdates | dqn.py:72-74 | n successive soft updates against the same online parameters, keeping the parameter count |
| Dqn.DQNAgent.UpdateTargetModel | dqn.py:72-74 | The target parameters become the soft update of the old ones, in place; the online parameters are unchanged |
| Dqn.DQNAgent.constructor | dqn.py:31-37 | Both networks start with the same parameters (the target is a copy of the online network) and the memory is empty |

## Left out

- The SUMO simulator and its `traci` calls are left out: starting and closing sessions, `simulationStep`, `getPhase`/`setPhase`, vehicle, lane and speed queries, and the min-expected count. They are replaced by the frames of an `Engine`, a `phase` and a `minExpected` parameter, and the returned phase trace. The engine's frames are fixed when the episode starts, so the model does not capture how the phases set would change the traffic.
- `close` is left out; `Reset` returns whether a session would be closed.
- Route generation (`generator.py`), the training driver (`training_simulation.py`), logging and plotting are left out. The driver passes `truncated` as the `done` flag of a transition; here `done` is just a boolean.
- The `SUMO_HOME` check, the binary lookup, the action and observation space declarations, and the `vehicles` dictionary that `reset` creates and nothing reads are left out.
- Floating point is modelled as exact `real` arithmetic. The observation is natural numbers rather than a `float32` array.
- Road and highway ids are assumed distinct. They are an enumeration of four roads and two highways, and lanes are 0..2.
- Environment.TrafficEnv.constructor: it creates empty tables, which the source only creates in `reset`. A `step` before the first `reset` fails in the source, so `Step` requires `episode > 0`.
- Environment.TrafficEnv.Step: it requires `episode > 0`, because before the first `reset` the source has no tables and fails.
- Traffic.AverageHighwaySpeedWithin: `average_highway_speed` divides by the number of speeds without a guard; the model requires at least one speed.
- Traffic.TickEffect: it requires that the engine lists each vehicle at most once per road and step, as SUMO's per-edge id lists do. `TickDistinct` holds without that requirement.
- The network layers, ReLU forward pass, MSE loss, device choice and tensor conversion are left out. The Q-network is an opaque `QNet`; its output width is `action_size`, as the last layer gives.
- The RMSprop optimizer is left out. The model passes an opaque `Optimizer` to each `Replay` call, so successive steps may behave differently, as RMSprop's running averages do. Its learning rate is `update_rate`, as in the source; `learning_rate` is stored and never used.
- Dqn.DQNAgent.Replay: it requires `batch_size > 0` (a batch of 0 fails when the empty batch is unpacked). When training proceeds it also requires `action_size > 0` (the maximum over no scores fails) and a valid sample, and it requires that the optimizer returns as many parameters as it gets.
- Dqn.DQNAgent.Act: it requires `action_size > 0` and that the random pick is below `action_size`, as `random.randrange` guarantees.
- Random draws (`np.random.rand`, `random.randrange`, `random.sample`) are parameters; no distribution is stated.
- Departure follows the code: a tracked vehicle leaves its road's table only when it is absent from all four approach roads, so a vehicle that moves to another approach road stays in the first road's table.
