# Weights chromosome: a Dafny model

This project models the part of the Forecasting Engine that encodes a
feed-forward network's weights as a genetic-algorithm chromosome
(`WeightsChromosome`), and the mutation that works on it
(`UniformBinaryMutation`).

- `layout.dfy` (module `Layout`): the network shape as a list of neuron
  counts plus one bias flag per layer. It gives the closed-form weight count
  Σ_{l=0}^{L-2} (n[l] + bias[l]) · n[l+1] and the closed-form gene index of a
  weight `(layer, from, to)`, which is `Offset(layer) + from · n[layer+1] + to`.
  It also gives the inverse `SlotAt` of that index and the canonical traversal
  order. The lemmas prove that the index is a bijection from the weights onto
  `[0, N)` and that it follows the lexicographic order of
  `(layer, from, to)`.
- `weights.dfy` (module `Weights`): the chromosome and the nested counting
  loop of `checkValidity`. It also holds the nested loading loop of `update`,
  which writes genes into a map-based weight store, and the fitness
  evaluation through a trainer oracle. Then come the constructors and
  `newFixedLengthChromosome`.
- `mutation.dfy` (module `Mutation`): `mutate`. It refuses a chromosome of
  another kind, draws one coin per gene from an explicit coin stream, moves
  each gene by `-ε` or `+ε`, and rebuilds through the factory.

External collaborators become values and parameters:

- The network is referred to by a handle (`Ref`). Its state (`Net`: shape
  plus weight map) is passed into every evaluation, and the state it is left
  in is returned.
- The trainer is an oracle `Net -> Report`. One call models `iteration()`
  followed by `getError()`. It reports an error and the network as training
  left it.
- Genes are `real` and `ε` is a parameter.
- The shared pseudo-random generator becomes a `seq<bool>` of coins. The part
  of the stream that was not drawn is returned.

Points where the code's behaviour is easy to misread:

- `checkValidity` never rejects. The branch for a missing or mismatched
  value list (WeightsChromosome.java:185-187) is an empty TODO, so no
  "invalid representation" error is ever raised.
- A gene list shorter than the weight count is not rejected up front. The
  load loop writes the weights it reaches. The read `weights.get(index)` then
  fails when `index` equals the list size (`IndexOutOfBounds`), and the
  writes made before stay in the shared network. `New`,
  `NewFixedLengthChromosome` and `Mutate` all return that partially written
  network. A longer list loads its first N genes and ignores the rest.
- In the superclass constructor, `checkValidity` runs while the network
  field is still unset, so it always takes its early return. `New` models
  that call as `CheckValidity(None, …)`.

`fitness()` returns the `fitness` field of the chromosome record. The
original chromosome is an immutable value here, so `Mutate` cannot change
it. The mutated copy is a separate sequence, as the deep copy in the source
intends.

## Model

| member | source | states |
|---|---|---|
| `Layout.OffsetPlusRest` | Client/Forecasting-Engine/src/main/java/org/apache/commons/math3/genetics/WeightsChromosome.java:175-183 | the weights of layers before `l` plus those from `l` on add up to the closed-form count, for every `l` |
| `Layout.ExampleCount` | Client/Forecasting-Engine/src/main/java/org/apache/commons/math3/genetics/WeightsChromosome.java:175-183 | layers [3,2] with a bias on layer 0 have 8 weights; layers [2,2] without bias have 4 |
| `Weights.CountWeights` | Client/Forecasting-Engine/src/main/java/org/apache/commons/math3/genetics/WeightsChromosome.java:175-183 | the nested counter loop ends with the closed-form sum Σ (n[l] + bias[l]) · n[l+1] |
| `Weights.CheckValidity` | Client/Forecasting-Engine/src/main/java/org/apache/commons/math3/genetics/WeightsChromosome.java:164-188 | never rejects: it returns at once without a network, and it ignores a missing or wrong-sized value list; with a network it has computed the closed-form count |
| `Layout.SlotAtPosition` | Client/Forecasting-Engine/src/main/java/org/apache/commons/math3/genetics/WeightsChromosome.java:132-139 | every gene index below N is loaded into an existing weight, whose closed-form index is that same gene index |
| `Layout.PositionSlotAt` | Client/Forecasting-Engine/src/main/java/org/apache/commons/math3/genetics/WeightsChromosome.java:132-139 | every existing weight has a gene index below N, and that index maps back to the weight |
| `Layout.PositionInjective` | Client/Forecasting-Engine/src/main/java/org/apache/commons/math3/genetics/WeightsChromosome.java:132-139 | two weights share a gene index exactly when they are the same weight |
| `Layout.PrecedesPosition` | Client/Forecasting-Engine/src/main/java/org/apache/commons/math3/genetics/WeightsChromosome.java:132-139 | one weight comes before another in layer-major, from-major, to-minor order exactly when its gene index is smaller |
| `Layout.TraversalEnumeratesSlots` | Client/Forecasting-Engine/src/main/java/org/apache/commons/math3/genetics/WeightsChromosome.java:132-139 | the loading order has N entries; entry i is the weight at gene index i; every weight appears in it exactly once |
| `Layout.TraversalIsLexSorted` | Client/Forecasting-Engine/src/main/java/org/apache/commons/math3/genetics/WeightsChromosome.java:132-139 | the loading order is strictly increasing in (layer, from, to) |
| `Weights.Load` | Client/Forecasting-Engine/src/main/java/org/apache/commons/math3/genetics/WeightsChromosome.java:131-139 | the loop's setWeight calls are exactly the canonical order; it fails with an index error exactly when the gene list is shorter than N; the store holds each reached weight's gene at its closed-form index and keeps everything else |
| `Weights.OverlayPlacesGenes` | Client/Forecasting-Engine/src/main/java/org/apache/commons/math3/genetics/WeightsChromosome.java:132-139 | after loading, weight (layer, from, to) holds gene Offset(layer) + from · n[layer+1] + to; entries that are not weights keep their value |
| `Weights.LoadIgnoresTail` | Client/Forecasting-Engine/src/main/java/org/apache/commons/math3/genetics/WeightsChromosome.java:131-139 | loading reads only genes[0 .. N): lists that agree there load the same store |
| `Weights.LoadIdempotent` | Client/Forecasting-Engine/src/main/java/org/apache/commons/math3/genetics/WeightsChromosome.java:132-139 | loading the same genes a second time changes nothing |
| `Weights.Update` | Client/Forecasting-Engine/src/main/java/org/apache/commons/math3/genetics/WeightsChromosome.java:118-150 | with at least N genes the fitness is the negation of the error the trainer reports on the loaded network, and the network is left as training left it; with fewer, the load fails with an index error |
| `Weights.New` | Client/Forecasting-Engine/src/main/java/org/apache/commons/math3/genetics/WeightsChromosome.java:45-113 | a missing network, then a missing trainer, fails before anything is evaluated; otherwise the chromosome holds the given genes and references, and its fitness is freshly computed from those genes; a list shorter than N fails with an index error and leaves the network with the genes written so far |
| `Weights.NewFixedLengthChromosome` | Client/Forecasting-Engine/src/main/java/org/apache/commons/math3/genetics/WeightsChromosome.java:193-197 | the new chromosome has exactly the given values, this chromosome's network and trainer references, and a fitness computed from the given values; a list shorter than N fails with an index error and leaves the network with the values written so far |
| `Weights.GetRepresentationOverflows` | Client/Forecasting-Engine/src/main/java/org/apache/commons/math3/genetics/WeightsChromosome.java:204-206 | the getter as written ends in a stack overflow, whatever the stack depth |
| `Mutation.Perturb` | Client/Forecasting-Engine/src/main/java/org/apache/commons/math3/genetics/UniformBinaryMutation.java:48-56 | mutation keeps the number of genes |
| `Mutation.PerturbMovesByEpsilon` | Client/Forecasting-Engine/src/main/java/org/apache/commons/math3/genetics/UniformBinaryMutation.java:49-55 | every gene moves by exactly ε; it moves down exactly when its coin is true |
| `Mutation.PerturbUndoneByFlippedCoins` | Client/Forecasting-Engine/src/main/java/org/apache/commons/math3/genetics/UniformBinaryMutation.java:49-55 | mutating again with every coin flipped gives back the original genes |
| `Mutation.PerturbDependsOnDrawnCoins` | Client/Forecasting-Engine/src/main/java/org/apache/commons/math3/genetics/UniformBinaryMutation.java:48-50 | the result depends only on the first one-coin-per-gene draws |
| `Mutation.Mutate` | Client/Forecasting-Engine/src/main/java/org/apache/commons/math3/genetics/UniformBinaryMutation.java:32-63 | another chromosome kind is refused with the stream untouched; otherwise exactly one coin per gene is drawn, gene i becomes original[i] - ε on a true coin and original[i] + ε otherwise, and the result has the original's network and trainer and a fitness computed from the mutated genes; a mutated list shorter than N fails with an index error and leaves the network with the mutated genes written so far |

## Left out

- The IEEE-754 arithmetic of `value ± Double.MIN_VALUE`. Genes are exact reals and ε is an abstract parameter. In doubles, rounding usually leaves the value unchanged and may saturate at the extremes; none of that is modelled.
- The initial fitness sentinel `-(Double.MAX_VALUE - 1)`. It is a floating-point placeholder that `update` always overwrites before the chromosome is visible.
- The network's own weight storage beyond `setWeight`, and what a training iteration computes. The trainer is an oracle. Its own internal state between iterations is not modelled; it is the same oracle on every call.
- The shared static pseudo-random generator. It is replaced by an explicit coin sequence that must hold at least one coin per gene. The generator's stream never runs out, so this is not a restriction on the source's callers.
- Logging, and concurrent evaluations that share one network and trainer.
- The 32-bit `int` range of `index` and `counter`. `index` never exceeds the gene list's size, and a Java list holds fewer than 2^31 elements, so `index` never wraps. `counter` counts the weights the topology implies, and no list bounds it: a topology with at least 2^31 weights (layers [46341, 46341] imply 2,147,488,281) would make `counter++` wrap. Such topologies are not modelled; the model's count is the unbounded sum.
- The array-taking, list-taking and copying constructors. They differ only in how the superclass stores the list, which makes no difference for an immutable sequence, so one `New` models all three.
- The null checks at the top of `update`. They repeat the constructors' checks and cannot fire on a constructed chromosome.
- Null gene lists and null gene elements. Genes are a plain `seq<real>`. In the source, a null list throws a NullPointerException inside `super(representation)` before the network check, so a null list together with a null network gives that exception rather than the `MissingNetwork` that `New` returns. A null element throws on unboxing in the load loop, after the earlier weights were written, and in the mutation loop.
- The superclass's wrapping of the list in an unmodifiable view. Sequences are immutable.

## Findings

| source | as written | input that shows it | evidently intended | confidence | as-written member | corrected member |
|---|---|---|---|---|---|---|
| Client/Forecasting-Engine/src/main/java/org/apache/commons/math3/genetics/WeightsChromosome.java:204-206 | `getRepresentation()` returns `getRepresentation()`, i.e. calls itself with no base case | any chromosome: the first call (already from `update` in every constructor, and from `mutate`) recurses until the stack is exhausted | return the stored gene list, as the superclass getter does | high, not executed | `Weights.GetRepresentationAsWritten` (lemma `Weights.GetRepresentationOverflows`: a stack overflow at every depth) | `Weights.Representation`, used by `Mutation.Mutate`; `Weights.New` proves that it returns exactly the genes the chromosome was built from |
