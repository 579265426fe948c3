/**
  Weight-layout arithmetic of a feed-forward network.

  A network has layers 0 .. L-1. Every layer l < L-1 is fully connected to
  layer l+1; when layer l is biased it has one extra source unit. The weights
  are numbered in the canonical order: layer-major, then source neuron, then
  destination neuron. This module gives the closed-form count of weights, the
  closed-form position of each weight, and its inverse.
 */
module Layout {

  /** Per-layer neuron counts and bias flags, as the network reports them. */
  datatype Layers = Layers(neurons: seq<nat>, biased: seq<bool>)

  /** A network shape in which every layer carries a bias flag. */
  type Topology = t: Layers | |t.neurons| == |t.biased| witness Layers([], [])

  /** The weight from source unit `from` of `layer` to neuron `to` of `layer + 1`. */
  datatype Slot = Slot(layer: nat, from: nat, to: nat)

  function Min(a: nat, b: nat): nat {
    if a <= b then a else b
  }

  function Bias(biased: bool): nat {
    if biased then 1 else 0
  }

  /** Source units feeding out of layer `l`: its neurons plus its bias unit, if any. */
  function Sources(t: Topology, l: nat): nat {
    if l < |t.neurons| then t.neurons[l] + Bias(t.biased[l]) else 0
  }

  /** Neurons that layer `l` feeds into; the output layer feeds nothing. */
  function Targets(t: Topology, l: nat): nat {
    if l + 1 < |t.neurons| then t.neurons[l + 1] else 0
  }

  /** Number of weights between layer `l` and layer `l + 1`. */
  function LayerWeights(t: Topology, l: nat): nat {
    Sources(t, l) * Targets(t, l)
  }

  /** Sum of LayerWeights(t, k) for l <= k <= L-2. */
  function CountFrom(t: Topology, l: nat): nat
    decreases |t.neurons| - l
  {
    if l + 1 < |t.neurons| then LayerWeights(t, l) + CountFrom(t, l + 1) else 0
  }

  /**
    The closed-form weight count: the sum over layers 0 .. L-2 of
    (neurons[l] + bias[l]) * neurons[l+1].
   */
  function WeightCount(t: Topology): nat {
    CountFrom(t, 0)
  }

  /** Number of weights that belong to layers before `l`. */
  function Offset(t: Topology, l: nat): nat {
    if l == 0 then 0 else Offset(t, l - 1) + LayerWeights(t, l - 1)
  }

  /** `s` names a weight that exists in the network. */
  predicate IsSlot(t: Topology, s: Slot) {
    s.layer + 1 < |t.neurons| && s.from < Sources(t, s.layer) && s.to < Targets(t, s.layer)
  }

  /** The closed-form gene index of a weight. */
  function Position(t: Topology, s: Slot): nat {
    Offset(t, s.layer) + s.from * Targets(t, s.layer) + s.to
  }

  /** The weight that gene `i` lands on, counting from the first weight of layer `l`. */
  function SlotFrom(t: Topology, i: nat, l: nat): Slot
    requires i < CountFrom(t, l)
    decreases |t.neurons| - l
  {
    if i < LayerWeights(t, l) then
      Slot(l, i / Targets(t, l), i % Targets(t, l))
    else
      SlotFrom(t, i - LayerWeights(t, l), l + 1)
  }

  /** The weight that gene `i` is loaded into: the inverse of Position. */
  function SlotAt(t: Topology, i: nat): Slot
    requires i < WeightCount(t)
  {
    SlotFrom(t, i, 0)
  }

  /** Every weight of the network, as a set. */
  function Slots(t: Topology): (slots: set<Slot>)
    ensures forall s :: s in slots <==> IsSlot(t, s)
  {
    set l: nat, f: nat, k: nat | l + 1 < |t.neurons| && f < Sources(t, l) && k < Targets(t, l) :: Slot(l, f, k)
  }

  /** The weights in the order the nested loading loop visits them. */
  function Traversal(t: Topology): seq<Slot> {
    seq(WeightCount(t), i requires 0 <= i < WeightCount(t) => SlotAt(t, i))
  }

  /** Lexicographic order on (layer, from, to). */
  predicate Precedes(a: Slot, b: Slot) {
    || a.layer < b.layer
    || (a.layer == b.layer && a.from < b.from)
    || (a.layer == b.layer && a.from == b.from && a.to < b.to)
  }

  // ---------------------------------------------------------------------------
  // Arithmetic helpers

  lemma MulLeftMono(a: nat, b: nat, m: nat)
    requires a <= b
    ensures a * m <= b * m
  {}

  /** Inside a block of `rows` rows of width `m`, row `f`, column `k` lies before the end. */
  lemma RowInBlock(f: nat, k: nat, rows: nat, m: nat)
    requires f < rows && k < m
    ensures f * m + k < rows * m
  {
    MulLeftMono(f + 1, rows, m);
    assert (f + 1) * m == f * m + m;
  }

  /** Row `f` ends before row `g` starts when f < g. */
  lemma RowsOrdered(f: nat, k: nat, g: nat, j: nat, m: nat)
    requires f < g && k < m
    ensures f * m + k < g * m + j
  {
    RowInBlock(f, k, g, m);
  }

  lemma DivModOfRow(f: nat, k: nat, m: nat)
    requires k < m
    ensures (f * m + k) / m == f
    ensures (f * m + k) % m == k
  {
    var x := f * m + k;
    var q, r := x / m, x % m;
    assert x == q * m + r;
    if q < f {
      RowsOrdered(q, r, f, k, m);
      assert false;
    } else if f < q {
      RowsOrdered(f, k, q, r, m);
      assert false;
    }
  }

  lemma QuotientBelowRows(i: nat, rows: nat, m: nat)
    requires m > 0 && i < rows * m
    ensures i / m < rows
  {
    var q := i / m;
    assert i == q * m + i % m;
    if rows <= q {
      MulLeftMono(rows, q, m);
      assert false;
    }
  }

  // ---------------------------------------------------------------------------
  // Sums

  /** Prefix sum plus suffix sum is the whole count, at every layer index. */
  lemma {:induction false} OffsetPlusRest(t: Topology, l: nat)
    ensures Offset(t, l) + CountFrom(t, l) == WeightCount(t)
  {
    if l > 0 {
      OffsetPlusRest(t, l - 1);
      if l + 1 >= |t.neurons| {
        assert CountFrom(t, l) == 0;
        if l >= |t.neurons| {
          assert Targets(t, l - 1) == 0;
        }
      }
    }
  }

  /** From the last layer on, the prefix sum is the whole count. */
  lemma OffsetAtEnd(t: Topology, l: nat)
    requires l + 1 >= |t.neurons|
    ensures Offset(t, l) == WeightCount(t)
  {
    OffsetPlusRest(t, l);
  }

  lemma {:induction false} OffsetMonotone(t: Topology, l: nat, k: nat)
    requires l <= k
    ensures Offset(t, l) <= Offset(t, k)
    decreases k - l
  {
    if l < k {
      OffsetMonotone(t, l, k - 1);
    }
  }

  /** Worked example: layers [3, 2] with a bias on layer 0 have (3 + 1) * 2 = 8 weights. */
  lemma ExampleCount()
    ensures WeightCount(Layers([3, 2], [true, false])) == 8
    ensures WeightCount(Layers([2, 2], [false, false])) == 4
  {}

  // ---------------------------------------------------------------------------
  // Position and SlotAt are mutually inverse

  lemma {:induction false} SlotFromPosition(t: Topology, i: nat, l: nat)
    requires i < CountFrom(t, l)
    ensures IsSlot(t, SlotFrom(t, i, l))
    ensures Position(t, SlotFrom(t, i, l)) == Offset(t, l) + i
    decreases |t.neurons| - l
  {
    if i < LayerWeights(t, l) {
      var m := Targets(t, l);
      assert m > 0;
      assert i == (i / m) * m + i % m;
      QuotientBelowRows(i, Sources(t, l), m);
    } else {
      SlotFromPosition(t, i - LayerWeights(t, l), l + 1);
    }
  }

  lemma {:induction false} PositionFrom(t: Topology, s: Slot, l: nat)
    requires IsSlot(t, s) && l <= s.layer
    ensures Offset(t, l) <= Position(t, s)
    ensures Position(t, s) - Offset(t, l) < CountFrom(t, l)
    ensures SlotFrom(t, Position(t, s) - Offset(t, l), l) == s
    decreases s.layer - l
  {
    var m := Targets(t, s.layer);
    RowInBlock(s.from, s.to, Sources(t, s.layer), m);
    if l == s.layer {
      DivModOfRow(s.from, s.to, m);
    } else {
      PositionFrom(t, s, l + 1);
    }
  }

  /** Every gene index below the count names a weight, and Position recovers the index. */
  lemma SlotAtPosition(t: Topology, i: nat)
    requires i < WeightCount(t)
    ensures IsSlot(t, SlotAt(t, i))
    ensures Position(t, SlotAt(t, i)) == i
  {
    SlotFromPosition(t, i, 0);
  }

  /** Every weight has a gene index below the count, and SlotAt recovers the weight. */
  lemma PositionSlotAt(t: Topology, s: Slot)
    requires IsSlot(t, s)
    ensures Position(t, s) < WeightCount(t)
    ensures SlotAt(t, Position(t, s)) == s
  {
    PositionFrom(t, s, 0);
  }

  /** Distinct weights never share a gene. */
  lemma PositionInjective(t: Topology, a: Slot, b: Slot)
    requires IsSlot(t, a) && IsSlot(t, b)
    ensures Position(t, a) == Position(t, b) <==> a == b
  {
    PositionSlotAt(t, a);
    PositionSlotAt(t, b);
  }

  /** Every weight of layer `l` lies before the first weight of layer `l + 1`. */
  lemma PositionBelowNextLayer(t: Topology, s: Slot)
    requires IsSlot(t, s)
    ensures Offset(t, s.layer) <= Position(t, s) < Offset(t, s.layer + 1)
  {
    RowInBlock(s.from, s.to, Sources(t, s.layer), Targets(t, s.layer));
  }

  lemma PrecedesThenPositionBelow(t: Topology, a: Slot, b: Slot)
    requires IsSlot(t, a) && IsSlot(t, b) && Precedes(a, b)
    ensures Position(t, a) < Position(t, b)
  {
    if a.layer < b.layer {
      PositionBelowNextLayer(t, a);
      PositionBelowNextLayer(t, b);
      OffsetMonotone(t, a.layer + 1, b.layer);
    } else if a.from < b.from {
      RowsOrdered(a.from, a.to, b.from, b.to, Targets(t, a.layer));
    }
  }

  /** Position grows along the lexicographic order of (layer, from, to). */
  lemma PrecedesPosition(t: Topology, a: Slot, b: Slot)
    requires IsSlot(t, a) && IsSlot(t, b)
    ensures Precedes(a, b) <==> Position(t, a) < Position(t, b)
  {
    if Precedes(a, b) {
      PrecedesThenPositionBelow(t, a, b);
    } else if Precedes(b, a) {
      PrecedesThenPositionBelow(t, b, a);
    } else {
      assert a == b;
    }
  }

  // ---------------------------------------------------------------------------
  // The traversal

  /**
    The canonical traversal has exactly WeightCount(t) entries, its i-th entry
    is the weight at gene index i, and every weight appears in it exactly once.
   */
  lemma TraversalEnumeratesSlots(t: Topology)
    ensures |Traversal(t)| == WeightCount(t)
    ensures forall i :: 0 <= i < |Traversal(t)| ==>
      IsSlot(t, Traversal(t)[i]) && Position(t, Traversal(t)[i]) == i
    ensures forall s :: IsSlot(t, s) ==>
      Position(t, s) < |Traversal(t)| && Traversal(t)[Position(t, s)] == s
    ensures forall i, j :: 0 <= i < |Traversal(t)| && 0 <= j < |Traversal(t)| && Traversal(t)[i] == Traversal(t)[j] ==> i == j
  {
    forall i | 0 <= i < WeightCount(t)
      ensures IsSlot(t, Traversal(t)[i]) && Position(t, Traversal(t)[i]) == i
    {
      SlotAtPosition(t, i);
    }
    forall s | IsSlot(t, s)
      ensures Position(t, s) < |Traversal(t)| && Traversal(t)[Position(t, s)] == s
    {
      PositionSlotAt(t, s);
    }
  }

  /** The traversal is strictly increasing: layer-major, then source, then destination. */
  lemma TraversalIsLexSorted(t: Topology)
    ensures forall i, j :: 0 <= i < j < |Traversal(t)| ==> Precedes(Traversal(t)[i], Traversal(t)[j])
  {
    TraversalEnumeratesSlots(t);
    forall i, j | 0 <= i < j < |Traversal(t)|
      ensures Precedes(Traversal(t)[i], Traversal(t)[j])
    {
      PrecedesPosition(t, Traversal(t)[i], Traversal(t)[j]);
    }
  }
}
