/**
  Uniform binary mutation over a weights chromosome: every gene moves by a
  fixed step `eps`, down when its coin is true and up otherwise. The coins
  come, one per gene and in gene order, from a pseudo-random stream that is
  passed in explicitly; the part of the stream left undrawn is returned.
 */
module Mutation {
  import opened Layout
  import opened Weights

  /** The chromosome variants a mutation policy may be handed. */
  datatype Chromosome = OfWeights(weights: WeightsChromosome) | OfOtherKind(name: string)

  /** One gene after its coin was drawn. */
  function Nudge(value: real, coin: bool, eps: real): real {
    if coin then value - eps else value + eps
  }

  /** The whole gene list after one coin per gene. */
  function Perturb(genes: seq<real>, coins: seq<bool>, eps: real): (mutated: seq<real>)
    requires |genes| <= |coins|
    ensures |mutated| == |genes|
  {
    seq(|genes|, i requires 0 <= i < |genes| => Nudge(genes[i], coins[i], eps))
  }

  function Flip(coins: seq<bool>): (flipped: seq<bool>)
    ensures |flipped| == |coins|
  {
    seq(|coins|, i requires 0 <= i < |coins| => !coins[i])
  }

  function Abs(x: real): real {
    if x < 0.0 then -x else x
  }

  /** Each gene moves by exactly `eps`, and the direction is the coin's. */
  lemma PerturbMovesByEpsilon(genes: seq<real>, coins: seq<bool>, eps: real, i: nat)
    requires |genes| <= |coins| && 0.0 < eps && i < |genes|
    ensures Abs(Perturb(genes, coins, eps)[i] - genes[i]) == eps
    ensures coins[i] <==> Perturb(genes, coins, eps)[i] < genes[i]
  {}

  /** Mutating again with every coin flipped restores the original genes. */
  lemma PerturbUndoneByFlippedCoins(genes: seq<real>, coins: seq<bool>, eps: real)
    requires |genes| <= |coins|
    ensures Perturb(Perturb(genes, coins, eps), Flip(coins), eps) == genes
  {
    var back := Perturb(Perturb(genes, coins, eps), Flip(coins), eps);
    forall i | 0 <= i < |genes|
      ensures back[i] == genes[i]
    {
      assert Flip(coins)[i] == !coins[i];
    }
  }

  /** Only the first |genes| coins matter, each for its own gene. */
  lemma PerturbDependsOnDrawnCoins(genes: seq<real>, coins: seq<bool>, other: seq<bool>, eps: real)
    requires |genes| <= |coins| && |genes| <= |other|
    requires coins[..|genes|] == other[..|genes|]
    ensures Perturb(genes, coins, eps) == Perturb(genes, other, eps)
  {
    forall i | 0 <= i < |genes|
      ensures coins[i] == other[i]
    {
      assert coins[i] == coins[..|genes|][i];
    }
  }

  /**
    The mutation policy. A chromosome of another kind is refused. Otherwise a
    fresh copy of the genes is mutated, one coin per gene in index order, and
    the result is rebuilt through the original's factory, so it is bound to
    the same network and trainer and is evaluated on the shared network.
   */
  method Mutate(original: Chromosome, coins: seq<bool>, eps: real, net: Net, iteration: Trainer)
    returns (r: Result<WeightsChromosome>, rest: seq<bool>, after: Net)
    requires original.OfWeights? ==> |original.weights.genes| <= |coins|
    ensures original.OfOtherKind? ==>
      r == Failure(NotWeightsChromosome) && rest == coins && after == net
    ensures original.OfWeights? ==>
      && rest == coins[|original.weights.genes|..]
      && (r.Success? <==> WeightCount(net.topology) <= |original.weights.genes|)
      && (r.Failure? ==>
            && r.error == IndexOutOfBounds(|original.weights.genes|, |original.weights.genes|)
            && after == net.(weights := Overlay(net.topology, net.weights,
                               Perturb(original.weights.genes, coins, eps), |original.weights.genes|)))
    ensures r.Success? ==>
      && original.OfWeights?
      && |r.value.genes| == |original.weights.genes|
      && r.value.genes == Perturb(original.weights.genes, coins, eps)
      && (forall i :: 0 <= i < |r.value.genes| ==>
            r.value.genes[i] == if coins[i] then original.weights.genes[i] - eps else original.weights.genes[i] + eps)
      && r.value.network == original.weights.network
      && r.value.trainer == original.weights.trainer
      && r.value.fitness == -iteration(Loaded(net, r.value.genes)).error
      && after == iteration(Loaded(net, r.value.genes)).network
  {
    if original.OfOtherKind? {
      return Failure(NotWeightsChromosome), coins, net;
    }
    var self := original.weights;
    var representation := Representation(self);
    var stream := coins;
    var i := 0;
    while i < |representation|
      invariant i <= |representation| == |self.genes|
      invariant stream == coins[i..]
      invariant forall j :: 0 <= j < i ==> representation[j] == Nudge(self.genes[j], coins[j], eps)
      invariant forall j :: i <= j < |representation| ==> representation[j] == self.genes[j]
    {
      var value := representation[i];
      var coin := stream[0];
      stream := stream[1..];
      if coin {
        value := value - eps;
      } else {
        value := value + eps;
      }
      representation := representation[i := value];
      i := i + 1;
    }
    rest := stream;
    r, after := NewFixedLengthChromosome(self, representation, net, iteration);
  }
}
