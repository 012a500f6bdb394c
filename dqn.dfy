/**
 * The learning agent of the controller: a deep Q-network agent with a
 * bounded replay memory, an epsilon-greedy action choice, a bootstrapped
 * regression target for training, and a soft (Polyak) update of a target
 * network towards the online network.
 *
 * The neural network itself is opaque: a `QNet` maps a parameter vector and
 * an observation to one score per action. The optimizer step is an opaque
 * function from the current parameters, the batch and its targets to new
 * parameters. Random draws are parameters.
 */
module Dqn {
  import opened Numbers

  /** `deque(maxlen=10000)`: the replay memory keeps at most this many. */
  const MEMORY_CAPACITY: nat := 10000

  /** One remembered step: `[state, action, reward, next_state, done]`. */
  datatype Transition = Transition(state: seq<int>, action: int, reward: real, nextState: seq<int>, done: bool)

  /** A forward pass: parameters and observation to one Q-value per action. */
  type QNet = (seq<real>, seq<int>) -> seq<real>

  /**
   * One optimizer step: learning rate, current parameters, the batch and its
   * regression targets to the new parameters.
   */
  type Optimizer = (real, seq<real>, seq<Transition>, seq<real>) -> seq<real>

  /** Every forward pass of `net` yields `n` scores (the last layer's width). */
  ghost predicate Shaped(net: QNet, n: nat)
  {
    forall p, s :: |net(p, s)| == n
  }

  /** An optimizer step returns as many parameters as it was given. */
  ghost predicate KeepsShape(step: Optimizer)
  {
    forall lr, p, b, t :: |step(lr, p, b, t)| == |p|
  }

  // ---------------------------------------------------------------------
  // Replay memory
  // ---------------------------------------------------------------------

  /** What a bounded deque keeps of `s`: its newest MEMORY_CAPACITY elements. */
  function Window<T>(s: seq<T>): (r: seq<T>)
    ensures |r| <= MEMORY_CAPACITY
    ensures |s| <= MEMORY_CAPACITY ==> r == s
    ensures |s| >= MEMORY_CAPACITY ==> |r| == MEMORY_CAPACITY
    ensures forall i :: 0 <= i < |r| ==> r[i] == s[|s| - |r| + i]
  {
    if |s| > MEMORY_CAPACITY then s[|s| - MEMORY_CAPACITY..] else s
  }

  /**
   * `remember`: append the transition as the newest element; a full memory
   * first drops its oldest one.
   */
  function BoundedAppend<T>(m: seq<T>, t: T): (r: seq<T>)
    requires |m| <= MEMORY_CAPACITY
    ensures |r| <= MEMORY_CAPACITY && |r| > 0 && r[|r| - 1] == t
    ensures |m| < MEMORY_CAPACITY ==> r == m + [t]
    ensures |m| == MEMORY_CAPACITY ==> r == m[1..] + [t]
  {
    Window(m + [t])
  }

  /** Remembering transitions one after the other. */
  function RememberAll<T>(m: seq<T>, ts: seq<T>): (r: seq<T>)
    requires |m| <= MEMORY_CAPACITY
    ensures |r| <= MEMORY_CAPACITY
    decreases |ts|
  {
    if ts == [] then m
    else BoundedAppend(RememberAll(m, ts[..|ts| - 1]), ts[|ts| - 1])
  }

  /** Trimming before or after an append keeps the same newest elements. */
  lemma WindowSnoc<T>(s: seq<T>, t: T)
    ensures Window(Window(s) + [t]) == Window(s + [t])
  {
    if |s| > MEMORY_CAPACITY {
      var w := s[|s| - MEMORY_CAPACITY..];
      assert (s + [t])[|s| + 1 - MEMORY_CAPACITY..] == w[1..] + [t];
    }
  }

  lemma SplitLast<T>(m: seq<T>, ts: seq<T>)
    requires |ts| > 0
    ensures m + ts == m + ts[..|ts| - 1] + [ts[|ts| - 1]]
  {
    assert ts == ts[..|ts| - 1] + [ts[|ts| - 1]];
  }

  /**
   * Any run of `remember` calls leaves exactly the newest MEMORY_CAPACITY
   * transitions of everything ever remembered, oldest first.
   */
  lemma {:induction false} RememberAllIsWindow<T>(m: seq<T>, ts: seq<T>)
    requires |m| <= MEMORY_CAPACITY
    ensures RememberAll(m, ts) == Window(m + ts)
    decreases |ts|
  {
    if ts == [] {
      assert m + ts == m;
    } else {
      var init, last := ts[..|ts| - 1], ts[|ts| - 1];
      RememberAllIsWindow(m, init);
      WindowSnoc(m + init, last);
      SplitLast(m, ts);
      calc {
        RememberAll(m, ts);
        BoundedAppend(RememberAll(m, init), last);
        Window(Window(m + init) + [last]);
        Window(m + init + [last]);
      }
    }
  }

  /** With room to spare, nothing already remembered is lost. */
  lemma RememberAllFits<T>(m: seq<T>, ts: seq<T>)
    requires |m| + |ts| <= MEMORY_CAPACITY
    ensures RememberAll(m, ts) == m + ts
  {
    RememberAllIsWindow(m, ts);
  }

  // ---------------------------------------------------------------------
  // Action selection
  // ---------------------------------------------------------------------

  /** `np.argmax`: the first index holding the largest score. */
  function ArgMax(s: seq<real>): (r: nat)
    requires |s| > 0
    ensures r < |s|
    ensures forall i :: 0 <= i < |s| ==> s[i] <= s[r]
    ensures forall i :: 0 <= i < r ==> s[i] < s[r]
    decreases |s|
  {
    if |s| == 1 then 0
    else
      var k := ArgMax(s[..|s| - 1]);
      if s[|s| - 1] > s[k] then |s| - 1 else k
  }

  /** The largest score. */
  function MaxOf(s: seq<real>): (r: real)
    requires |s| > 0
    ensures r in s
    ensures forall i :: 0 <= i < |s| ==> s[i] <= r
  {
    s[ArgMax(s)]
  }

  // ---------------------------------------------------------------------
  // Training target
  // ---------------------------------------------------------------------

  /**
   * The regression target of one transition given the target network's
   * scores of its next state: `reward + (1 - done) * gamma * max(next)`.
   */
  function Bootstrap(t: Transition, gamma: real, next: seq<real>): (r: real)
    requires |next| > 0
    ensures t.done ==> r == t.reward
    ensures !t.done ==> exists a :: 0 <= a < |next| && r == t.reward + gamma * next[a]
    ensures !t.done && gamma >= 0.0 ==> forall a :: 0 <= a < |next| ==> t.reward + gamma * next[a] <= r
  {
    var notDone := if t.done then 0.0 else 1.0;
    var m := MaxOf(next);
    assert !t.done && gamma >= 0.0 ==> forall a :: 0 <= a < |next| ==> gamma * next[a] <= gamma * m by {
      if !t.done && gamma >= 0.0 {
        forall a | 0 <= a < |next| ensures gamma * next[a] <= gamma * m {
          NonNegativeScale(gamma, next[a], m);
        }
      }
    }
    t.reward + notDone * gamma * m
  }

  lemma NonNegativeScale(g: real, x: real, y: real)
    requires g >= 0.0 && x <= y
    ensures g * x <= g * y
  {
    assert g * y - g * x == g * (y - x);
  }

  /**
   * The targets of a whole batch, computed with the target parameters: a
   * terminal transition's reward, otherwise its reward plus gamma times the
   * target network's best score for its next state.
   */
  function Targets(batch: seq<Transition>, net: QNet, params: seq<real>, gamma: real, actions: nat): (r: seq<real>)
    requires Shaped(net, actions) && actions > 0
    ensures |r| == |batch|
    ensures forall i :: 0 <= i < |batch| && batch[i].done ==> r[i] == batch[i].reward
    ensures forall i :: 0 <= i < |batch| && !batch[i].done ==>
      r[i] == batch[i].reward + gamma * MaxOf(net(params, batch[i].nextState))
  {
    seq(|batch|, i requires 0 <= i < |batch| => Bootstrap(batch[i], gamma, net(params, batch[i].nextState)))
  }

  // ---------------------------------------------------------------------
  // Sampling
  // ---------------------------------------------------------------------

  /** `random.sample(memory, k)`: k positions below n, no position twice. */
  predicate IsSample(picks: seq<nat>, n: nat, k: nat)
  {
    && |picks| == k
    && (forall i :: 0 <= i < |picks| ==> picks[i] < n)
    && (forall i, j :: 0 <= i < j < |picks| ==> picks[i] != picks[j])
  }

  /** The transitions at the sampled positions, in sampled order. */
  function Batch(m: seq<Transition>, picks: seq<nat>): (r: seq<Transition>)
    requires forall i :: 0 <= i < |picks| ==> picks[i] < |m|
    ensures |r| == |picks|
    ensures forall i :: 0 <= i < |r| ==> r[i] in m
  {
    seq(|picks|, i requires 0 <= i < |picks| => m[picks[i]])
  }

  /** Memory without the transition at position `p`. */
  function Without(m: seq<Transition>, p: nat): (r: seq<Transition>)
    requires p < |m|
    ensures |r| == |m| - 1
    ensures multiset(m) == multiset(r) + multiset{m[p]}
  {
    assert m == m[..p] + [m[p]] + m[p + 1..];
    m[..p] + m[p + 1..]
  }

  /** The positions `picks`, none of them `p`, renumbered for `Without(m, p)`. */
  function Renumber(picks: seq<nat>, p: nat): (r: seq<nat>)
    requires forall i :: 0 <= i < |picks| ==> picks[i] != p
    ensures |r| == |picks|
    ensures forall i :: 0 <= i < |r| ==> r[i] == if picks[i] < p then picks[i] else picks[i] - 1
  {
    seq(|picks|, i requires 0 <= i < |picks| => if picks[i] < p then picks[i] else picks[i] - 1)
  }

  /**
   * A draw without replacement takes each transition at most as often as
   * memory holds it: the batch is a sub-multiset of memory.
   */
  lemma {:induction false} BatchSubMultiset(m: seq<Transition>, picks: seq<nat>)
    requires IsSample(picks, |m|, |picks|)
    ensures multiset(Batch(m, picks)) <= multiset(m)
    decreases |picks|
  {
    if |picks| > 0 {
      var init, last := picks[..|picks| - 1], picks[|picks| - 1];
      assert forall i :: 0 <= i < |init| ==> init[i] == picks[i] != last;
      var m', init' := Without(m, last), Renumber(init, last);
      assert IsSample(init', |m'|, |init'|);
      assert Batch(m', init') == Batch(m, init) by {
        forall i | 0 <= i < |init'| ensures m'[init'[i]] == m[init[i]] {
          if init[i] > last {
            assert m'[init'[i]] == m[last + 1..][init[i] - 1 - last];
          }
        }
      }
      BatchSubMultiset(m', init');
      assert Batch(m, picks) == Batch(m, init) + [m[last]];
    }
  }

  /** The positions a draw hit. */
  function Drawn(picks: seq<nat>): set<nat>
  {
    set x | x in picks
  }

  /** Positions drawn without replacement are as many as the distinct values drawn. */
  lemma {:induction false} DistinctCard(picks: seq<nat>)
    requires forall i, j :: 0 <= i < j < |picks| ==> picks[i] != picks[j]
    ensures |Drawn(picks)| == |picks|
    decreases |picks|
  {
    if picks != [] {
      var init, last := picks[..|picks| - 1], picks[|picks| - 1];
      DistinctCard(init);
      assert picks == init + [last];
      assert Drawn(picks) == Drawn(init) + {last};
    }
  }

  /** A set of positions below n has at most n members. */
  lemma {:induction false} BoundedCard(s: set<nat>, n: nat)
    requires forall x :: x in s ==> x < n
    ensures |s| <= n
  {
    if n == 0 {
      assert s == {};
    } else {
      BoundedCard(s - {n - 1}, n - 1);
    }
  }

  /**
   * Sampling without replacement cannot draw more transitions than memory
   * holds, which is why `replay` waits until `len(memory) >= batch_size`.
   */
  lemma SampleFits(picks: seq<nat>, n: nat, k: nat)
    requires IsSample(picks, n, k)
    ensures k <= n
  {
    DistinctCard(picks);
    BoundedCard(Drawn(picks), n);
  }

  // ---------------------------------------------------------------------
  // Soft target update
  // ---------------------------------------------------------------------

  /** `tau * online + (1 - tau) * target`, parameter by parameter. */
  function SoftUpdate(target: seq<real>, online: seq<real>, tau: real): (r: seq<real>)
    requires |target| == |online|
    ensures |r| == |target|
    ensures forall i :: 0 <= i < |r| ==> r[i] - online[i] == (1.0 - tau) * (target[i] - online[i])
  {
    seq(|target|, i requires 0 <= i < |target| => tau * online[i] + (1.0 - tau) * target[i])
  }

  /** Target parameters that already equal the online ones stay put. */
  lemma SoftUpdateFixedPoint(online: seq<real>, tau: real)
    ensures SoftUpdate(online, online, tau) == online
  {
    var r := SoftUpdate(online, online, tau);
    assert forall i :: 0 <= i < |r| ==> r[i] == online[i];
  }

  /** A rate of 1 copies the online parameters outright. */
  lemma SoftUpdateHard(target: seq<real>, online: seq<real>)
    requires |target| == |online|
    ensures SoftUpdate(target, online, 1.0) == online
  {
    var r := SoftUpdate(target, online, 1.0);
    assert forall i :: 0 <= i < |r| ==> r[i] == online[i];
  }

  /** With a rate in [0, 1] each parameter moves between its two old values. */
  lemma SoftUpdateBetween(target: seq<real>, online: seq<real>, tau: real, i: nat)
    requires |target| == |online| && 0.0 <= tau <= 1.0 && i < |target|
    ensures var r := SoftUpdate(target, online, tau)[i];
      && (target[i] <= online[i] ==> target[i] <= r <= online[i])
      && (online[i] <= target[i] ==> online[i] <= r <= target[i])
  {
    var d := target[i] - online[i];
    var r := SoftUpdate(target, online, tau)[i];
    assert r - online[i] == (1.0 - tau) * d;
    if d <= 0.0 {
      NonNegativeScale(1.0 - tau, d, 0.0);
      NonNegativeScale(tau, d, 0.0);
      assert (1.0 - tau) * d >= d;
    } else {
      NonNegativeScale(1.0 - tau, 0.0, d);
      NonNegativeScale(tau, 0.0, d);
      assert (1.0 - tau) * d <= d;
    }
  }

  function Pow(x: real, n: nat): real
  {
    if n == 0 then 1.0 else x * Pow(x, n - 1)
  }

  /** `update_target_model` called n times with the online parameters fixed. */
  function SoftUpdates(target: seq<real>, online: seq<real>, tau: real, n: nat): (r: seq<real>)
    requires |target| == |online|
    ensures |r| == |target|
  {
    if n == 0 then target else SoftUpdate(SoftUpdates(target, online, tau, n - 1), online, tau)
  }

  /**
   * After n updates the gap between a target parameter and its online
   * parameter is the initial gap scaled by (1 - tau)^n.
   */
  lemma {:induction false} SoftUpdatesGap(target: seq<real>, online: seq<real>, tau: real, n: nat, i: nat)
    requires |target| == |online| && i < |target|
    ensures SoftUpdates(target, online, tau, n)[i] - online[i] == Pow(1.0 - tau, n) * (target[i] - online[i])
  {
    if n > 0 {
      var prev := SoftUpdates(target, online, tau, n - 1);
      SoftUpdatesGap(target, online, tau, n - 1, i);
      var c, p, d := 1.0 - tau, Pow(1.0 - tau, n - 1), target[i] - online[i];
      assert SoftUpdates(target, online, tau, n)[i] - online[i] == c * (prev[i] - online[i]);
      assert c * (p * d) == (c * p) * d;
    }
  }

  // ---------------------------------------------------------------------
  // The agent
  // ---------------------------------------------------------------------

  class DQNAgent {
    const stateSize: int
    const actionSize: nat
    const gamma: real
    const epsilon: real
    const learningRate: real
    const updateRate: real
    /** The architecture shared by the online and the target network. */
    const net: QNet
    /** The online network's parameters (`self.model`). */
    const online: array<real>
    /** The target network's parameters (`self.target_model`). */
    const target: array<real>
    var memory: seq<Transition>

    ghost predicate Valid()
      reads this
    {
      && online != target
      && online.Length == target.Length
      && Shaped(net, actionSize)
      && |memory| <= MEMORY_CAPACITY
    }

    /**
     * Both networks get the same architecture; the target starts as an
     * exact copy of the online network's (randomly initialised) parameters
     * `init`; the memory starts empty.
     */
    constructor(stateSize: int, actionSize: nat, gamma: real, epsilon: real, learningRate: real,
                updateRate: real, net: QNet, init: seq<real>)
      requires Shaped(net, actionSize)
      ensures Valid()
      ensures fresh(online) && fresh(target)
      ensures online[..] == init && target[..] == init
      ensures memory == []
      ensures this.stateSize == stateSize && this.actionSize == actionSize && this.gamma == gamma
      ensures this.epsilon == epsilon && this.learningRate == learningRate && this.updateRate == updateRate
      ensures this.net == net
    {
      this.stateSize := stateSize;
      this.actionSize := actionSize;
      this.gamma := gamma;
      this.epsilon := epsilon;
      this.learningRate := learningRate;
      this.updateRate := updateRate;
      this.net := net;
      online := new real[|init|](i requires 0 <= i < |init| => init[i]);
      target := new real[|init|](i requires 0 <= i < |init| => init[i]);
      memory := [];
    }

    /**
     * `act`: explore with the random index `pick` when the uniform draw is at
     * most epsilon, otherwise take the first action of highest online
     * Q-value for `state`.
     */
    method Act(state: seq<int>, draw: real, pick: nat) returns (a: nat)
      requires Valid() && actionSize > 0 && pick < actionSize
      ensures a < actionSize
      ensures draw <= epsilon ==> a == pick
      ensures draw > epsilon ==> var q := net(online[..], state);
        && (forall i :: 0 <= i < |q| ==> q[i] <= q[a])
        && (forall i :: 0 <= i < a ==> q[i] < q[a])
    {
      if draw <= epsilon {
        return pick;
      }
      var q := net(online[..], state);
      a := ArgMax(q);
    }

    /** `remember`: append to the bounded memory. */
    method Remember(t: Transition)
      requires Valid()
      modifies this`memory
      ensures Valid()
      ensures memory == BoundedAppend(old(memory), t)
    {
      memory := BoundedAppend(memory, t);
    }

    /**
     * `replay`: with fewer than `batchSize` transitions remembered, do
     * nothing. Otherwise take the sampled batch, compute its targets with
     * the target network, and let the optimizer (learning rate
     * `updateRate`) replace the online parameters in place.
     */
    method Replay(batchSize: nat, picks: seq<nat>, step: Optimizer)
      returns (trained: bool, batch: seq<Transition>, targets: seq<real>)
      requires Valid() && batchSize > 0 && KeepsShape(step)
      requires |memory| >= batchSize ==> actionSize > 0 && IsSample(picks, |memory|, batchSize)
      modifies online
      ensures Valid()
      ensures trained <==> |memory| >= batchSize
      ensures !trained ==> online[..] == old(online[..])
      ensures trained ==>
        && batch == Batch(memory, picks)
        && targets == Targets(batch, net, target[..], gamma, actionSize)
        && online[..] == step(updateRate, old(online[..]), batch, targets)
      ensures memory == old(memory) && target[..] == old(target[..])
    {
      if |memory| < batchSize {
        return false, [], [];
      }
      trained := true;
      batch := Batch(memory, picks);
      targets := Targets(batch, net, target[..], gamma, actionSize);
      var next := step(updateRate, online[..], batch, targets);
      for i := 0 to online.Length
        invariant online[..i] == next[..i]
        invariant online[i..] == old(online[i..])
      {
        online[i] := next[i];
      }
    }

    /** `update_target_model`: move every target parameter towards the online one. */
    method UpdateTargetModel()
      requires Valid()
      modifies target
      ensures Valid()
      ensures target[..] == SoftUpdate(old(target[..]), online[..], updateRate)
      ensures online[..] == old(online[..])
    {
      ghost var t0 := target[..];
      for i := 0 to target.Length
        invariant target[..i] == SoftUpdate(t0, online[..], updateRate)[..i]
        invariant target[i..] == t0[i..]
      {
        target[i] := updateRate * online[i] + (1.0 - updateRate) * target[i];
      }
    }
  }
}
