/**
  The weights chromosome: a fixed-length list of genes, one per network
  weight, whose fitness is the negated error that the trainer reports after
  the genes were loaded into the network and one training iteration ran.

  The network and the trainer are external objects shared by reference. A
  chromosome holds only their references (`Ref`); the state of the referenced
  network (`Net`) is passed into every evaluation and its new state is
  returned. The trainer is an oracle: given the loaded network it reports an
  error and the network as training left it.
 */
module Weights {
  import opened Layout

  datatype Option<T> = None | Some(value: T)

  /** The exceptions this core raises. */
  datatype Error =
    | MissingNetwork                           // RuntimeException: no network given
    | MissingTrainer                           // RuntimeException: no training strategy given
    | IndexOutOfBounds(index: nat, size: nat)  // the gene list is shorter than the weight count
    | StackOverflow                            // unbounded recursion exhausted the stack
    | NotWeightsChromosome                     // MathIllegalArgumentException from the mutation

  datatype Result<T> = Success(value: T) | Failure(error: Error)

  datatype Outcome = Pass | Fail(error: Error)

  /** The identity of an external, shared object. */
  datatype Ref = Ref(id: nat)

  /** The state of a network: its shape and its weight store. */
  datatype Net = Net(topology: Topology, weights: map<Slot, real>)

  /** What one training iteration reports: the error and the network it leaves behind. */
  datatype Report = Report(error: real, network: Net)

  /** One iteration of the training strategy, applied to the network's current state. */
  type Trainer = Net -> Report

  datatype WeightsChromosome = WeightsChromosome(genes: seq<real>, fitness: real, network: Ref, trainer: Ref)

  // ---------------------------------------------------------------------------
  // Weight count and validity check

  /** The triple loop of the validity check: one increment per weight. */
  method CountWeights(t: Topology) returns (counter: nat)
    ensures counter == WeightCount(t)
  {
    counter := 0;
    var layer: nat := 0;
    while layer + 1 < |t.neurons|
      invariant layer == 0 || layer < |t.neurons|
      invariant counter == Offset(t, layer)
    {
      var bias := if t.biased[layer] then 1 else 0;
      var from: nat := 0;
      while from < t.neurons[layer] + bias
        invariant from <= t.neurons[layer] + bias
        invariant counter == Offset(t, layer) + from * t.neurons[layer + 1]
      {
        var to: nat := 0;
        while to < t.neurons[layer + 1]
          invariant to <= t.neurons[layer + 1]
          invariant counter == Offset(t, layer) + from * t.neurons[layer + 1] + to
        {
          counter := counter + 1;
          to := to + 1;
        }
        from := from + 1;
      }
      layer := layer + 1;
    }
    OffsetAtEnd(t, layer);
  }

  /**
    The validity check as the code has it. Without a network it returns at
    once; otherwise it counts the weights and then does nothing with a
    missing or mismatched value list. `counted` exposes the count it computed.
   */
  method CheckValidity(network: Option<Topology>, values: Option<seq<real>>) returns (verdict: Outcome, counted: Option<nat>)
    ensures verdict == Pass
    ensures network.None? ==> counted == None
    ensures network.Some? ==> counted == Some(WeightCount(network.value))
  {
    if network.None? {
      return Pass, None;
    }
    var counter := CountWeights(network.value);
    if values.None? || counter != |values.value| {
      // the mismatch is left unreported
    }
    verdict, counted := Pass, Some(counter);
  }

  // ---------------------------------------------------------------------------
  // Loading genes into the weight store

  /** The weights whose gene index is below `n`. */
  function Reached(t: Topology, n: nat): set<Slot> {
    set s | s in Slots(t) && Position(t, s) < n
  }

  /** The weight store `prior` after the first `n` genes were written, each at its closed-form position. */
  function Overlay(t: Topology, prior: map<Slot, real>, genes: seq<real>, n: nat): map<Slot, real>
    requires n <= |genes|
  {
    map s | s in prior.Keys + Reached(t, n) :: if s in Reached(t, n) then genes[Position(t, s)] else prior[s]
  }

  lemma OverlayStep(t: Topology, prior: map<Slot, real>, genes: seq<real>, n: nat)
    requires n < |genes| && n < WeightCount(t)
    ensures Overlay(t, prior, genes, n + 1) == Overlay(t, prior, genes, n)[SlotAt(t, n) := genes[n]]
  {
    var s0 := SlotAt(t, n);
    SlotAtPosition(t, n);
    forall s | s in Reached(t, n + 1)
      ensures s in Reached(t, n) || s == s0
    {
      if Position(t, s) == n {
        PositionSlotAt(t, s);
      }
    }
    assert Reached(t, n + 1) == Reached(t, n) + {s0};
  }

  /** One iteration of the load loop: writing gene `index` into weight `s` extends both the store and the call log by one. */
  lemma LoadStep(t: Topology, prior: map<Slot, real>, genes: seq<real>, s: Slot, index: nat)
    requires IsSlot(t, s) && index == Position(t, s) && index < |genes|
    ensures index < WeightCount(t)
    ensures Overlay(t, prior, genes, index + 1) == Overlay(t, prior, genes, index)[s := genes[index]]
    ensures Traversal(t)[..index + 1] == Traversal(t)[..index] + [s]
  {
    PositionSlotAt(t, s);
    OverlayStep(t, prior, genes, index);
  }

  /**
    Every weight of the network holds the gene at its closed-form position,
    and every other entry of the store keeps its earlier value.
   */
  lemma OverlayPlacesGenes(t: Topology, prior: map<Slot, real>, genes: seq<real>, s: Slot)
    requires WeightCount(t) <= |genes|
    ensures IsSlot(t, s) ==> Position(t, s) < |genes|
    ensures IsSlot(t, s) ==>
      var w := Overlay(t, prior, genes, WeightCount(t));
      s in w && w[s] == genes[Offset(t, s.layer) + s.from * Targets(t, s.layer) + s.to]
    ensures !IsSlot(t, s) ==>
      var w := Overlay(t, prior, genes, WeightCount(t));
      (s in w <==> s in prior) && (s in prior ==> w[s] == prior[s])
  {
    if IsSlot(t, s) {
      PositionSlotAt(t, s);
    }
  }

  /** Loading reads only genes[0 .. N): two gene lists that agree there load identically. */
  lemma LoadIgnoresTail(t: Topology, prior: map<Slot, real>, genes: seq<real>, other: seq<real>)
    requires WeightCount(t) <= |genes| && WeightCount(t) <= |other|
    requires genes[..WeightCount(t)] == other[..WeightCount(t)]
    ensures Overlay(t, prior, genes, WeightCount(t)) == Overlay(t, prior, other, WeightCount(t))
  {
    var n := WeightCount(t);
    forall s | s in Reached(t, n)
      ensures genes[Position(t, s)] == other[Position(t, s)]
    {
      assert genes[Position(t, s)] == genes[..n][Position(t, s)];
    }
  }

  /** Loading the same genes twice leaves the store as loading them once. */
  lemma LoadIdempotent(t: Topology, prior: map<Slot, real>, genes: seq<real>)
    requires WeightCount(t) <= |genes|
    ensures var once := Overlay(t, prior, genes, WeightCount(t));
            Overlay(t, once, genes, WeightCount(t)) == once
  {}

  /**
    The load loop of the update. It calls setWeight once per weight in the
    canonical order (`visited` logs the calls) and reads gene `index` for the
    index-th call. A gene list shorter than the weight count makes the read
    fail once `index` reaches its size; the writes made before stay in place.
   */
  method Load(t: Topology, prior: map<Slot, real>, genes: seq<real>)
    returns (weights: map<Slot, real>, visited: seq<Slot>, outcome: Outcome)
    ensures outcome == if |genes| < WeightCount(t) then Fail(IndexOutOfBounds(|genes|, |genes|)) else Pass
    ensures visited == Traversal(t)[..Min(|genes|, WeightCount(t))]
    ensures weights == Overlay(t, prior, genes, Min(|genes|, WeightCount(t)))
  {
    weights, visited, outcome := prior, [], Pass;
    var index: nat := 0;
    var layer: nat := 0;
    while layer + 1 < |t.neurons|
      invariant layer == 0 || layer < |t.neurons|
      invariant index == Offset(t, layer)
      invariant index <= |genes| && index <= WeightCount(t)
      invariant visited == Traversal(t)[..index]
      invariant weights == Overlay(t, prior, genes, index)
    {
      var bias := if t.biased[layer] then 1 else 0;
      var from: nat := 0;
      while from < t.neurons[layer] + bias
        invariant from <= t.neurons[layer] + bias
        invariant index == Offset(t, layer) + from * t.neurons[layer + 1]
        invariant index <= |genes| && index <= WeightCount(t)
        invariant visited == Traversal(t)[..index]
        invariant weights == Overlay(t, prior, genes, index)
      {
        var to: nat := 0;
        while to < t.neurons[layer + 1]
          invariant to <= t.neurons[layer + 1]
          invariant index == Offset(t, layer) + from * t.neurons[layer + 1] + to
          invariant index <= |genes| && index <= WeightCount(t)
          invariant visited == Traversal(t)[..index]
          invariant weights == Overlay(t, prior, genes, index)
        {
          var s := Slot(layer, from, to);
          assert IsSlot(t, s) && index == Position(t, s);
          if index == |genes| {
            PositionSlotAt(t, s);
            outcome := Fail(IndexOutOfBounds(index, |genes|));
            return;
          }
          LoadStep(t, prior, genes, s, index);
          weights := weights[s := genes[index]];
          visited := visited + [s];
          index := index + 1;
          to := to + 1;
        }
        from := from + 1;
      }
      layer := layer + 1;
    }
    OffsetAtEnd(t, layer);
  }

  /** The network after all N genes were loaded. */
  function Loaded(net: Net, genes: seq<real>): Net
    requires WeightCount(net.topology) <= |genes|
  {
    net.(weights := Overlay(net.topology, net.weights, genes, WeightCount(net.topology)))
  }

  // ---------------------------------------------------------------------------
  // Fitness evaluation and construction

  /**
    The update: load the genes, run one training iteration and take the
    negated error as fitness. Returns the fitness (or the error that stopped
    the loading) and the state the network is left in.
   */
  method Update(genes: seq<real>, net: Net, iteration: Trainer) returns (fitness: Result<real>, after: Net)
    ensures |genes| < WeightCount(net.topology) ==>
      && fitness == Failure(IndexOutOfBounds(|genes|, |genes|))
      && after == net.(weights := Overlay(net.topology, net.weights, genes, |genes|))
    ensures WeightCount(net.topology) <= |genes| ==>
      && fitness == Success(-iteration(Loaded(net, genes)).error)
      && after == iteration(Loaded(net, genes)).network
  {
    var weights, visited, outcome := Load(net.topology, net.weights, genes);
    var loaded := net.(weights := weights);
    if outcome.Fail? {
      return Failure(outcome.error), loaded;
    }
    var report := iteration(loaded);
    fitness, after := Success(-report.error), report.network;
  }

  /**
    The constructors. All three behave alike: the superclass constructor runs
    the validity check while the network field is still unset, then the
    network and the trainer are checked for presence, in that order, before
    anything is evaluated.
   */
  method New(genes: seq<real>, network: Option<Ref>, trainer: Option<Ref>, net: Net, iteration: Trainer)
    returns (r: Result<WeightsChromosome>, after: Net)
    ensures network.None? ==> r == Failure(MissingNetwork) && after == net
    ensures network.Some? && trainer.None? ==> r == Failure(MissingTrainer) && after == net
    ensures network.Some? && trainer.Some? ==>
      (r.Success? <==> WeightCount(net.topology) <= |genes|)
    ensures r.Failure? && network.Some? && trainer.Some? ==>
      r.error == IndexOutOfBounds(|genes|, |genes|)
    ensures r.Failure? && network.Some? && trainer.Some? ==>
      after == net.(weights := Overlay(net.topology, net.weights, genes, |genes|))
    ensures r.Success? ==>
      && network.Some? && trainer.Some? && WeightCount(net.topology) <= |genes|
      && Representation(r.value) == genes
      && r.value.network == network.value
      && r.value.trainer == trainer.value
      && r.value.fitness == -iteration(Loaded(net, genes)).error
      && after == iteration(Loaded(net, genes)).network
  {
    var _, _ := CheckValidity(None, Some(genes));
    if network.None? {
      return Failure(MissingNetwork), net;
    }
    if trainer.None? {
      return Failure(MissingTrainer), net;
    }
    var fitness;
    fitness, after := Update(genes, net, iteration);
    if fitness.Failure? {
      return Failure(fitness.error), after;
    }
    r := Success(WeightsChromosome(genes, fitness.value, network.value, trainer.value));
  }

  /** A new chromosome with the given values, bound to this one's network and trainer. */
  method NewFixedLengthChromosome(self: WeightsChromosome, values: seq<real>, net: Net, iteration: Trainer)
    returns (r: Result<WeightsChromosome>, after: Net)
    ensures r.Success? <==> WeightCount(net.topology) <= |values|
    ensures r.Failure? ==>
      && r.error == IndexOutOfBounds(|values|, |values|)
      && after == net.(weights := Overlay(net.topology, net.weights, values, |values|))
    ensures r.Success? ==>
      && r.value.genes == values
      && r.value.network == self.network
      && r.value.trainer == self.trainer
      && r.value.fitness == -iteration(Loaded(net, values)).error
      && after == iteration(Loaded(net, values)).network
  {
    r, after := New(values, Some(self.network), Some(self.trainer), net, iteration);
  }

  // ---------------------------------------------------------------------------
  // The gene-list getter

  /** The stored gene list: what the getter is evidently meant to return. */
  function Representation(c: WeightsChromosome): seq<real> {
    c.genes
  }

  /**
    The getter as written: it calls itself and nothing else, so each call only
    uses up one of the `frames` stack frames that are left.
   */
  function GetRepresentationAsWritten(c: WeightsChromosome, frames: nat): Result<seq<real>> {
    if frames == 0 then Failure(StackOverflow) else GetRepresentationAsWritten(c, frames - 1)
  }

  /** However deep the stack, the getter as written never returns the genes. */
  lemma {:induction false} GetRepresentationOverflows(c: WeightsChromosome, frames: nat)
    ensures GetRepresentationAsWritten(c, frames) == Failure(StackOverflow)
  {
    if frames > 0 {
      GetRepresentationOverflows(c, frames - 1);
    }
  }
}
