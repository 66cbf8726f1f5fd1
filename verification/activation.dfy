/** The activation engine of the board (the "Activation" button).

    Every activation is first reset to 0. Then `ic` rounds run. In a round,
    every link S -> T whose target T is a node of the board adds
        weight * S.commit + S.activation * alpha
    to T's increment, reading S.activation as it stood at the START of the
    round; after all links have been visited, every node's increment is added
    to its activation at once (a Jacobi update).

    The formula is the one the board ships: no division by the number of
    rounds and no term a node receives from its own commit. Activations are
    exact reals here; the source computes in IEEE doubles. */
module Activation {
  import opened Util
  import opened Graph
  import BoardState

  /** The round count and propagation rate hard-coded by the board. */
  const BoardRounds: nat := 3
  const BoardRate: real := 0.2

  /** The values the configuration file names for the same two parameters. */
  const ConfigRounds: nat := 3
  const ConfigRate: real := 0.01

  /** What source `s` adds to target `t`'s increment in one round. */
  function Contribution(s: Node, t: Id, alpha: real): (r: real)
    ensures t !in s.links ==> r == 0.0
    ensures t in s.links ==> r == (s.links[t] as real) * (s.commit as real) + s.activation * alpha
  {
    if t in s.links then (s.links[t] as real) * (s.commit as real) + s.activation * alpha
    else 0.0
  }

  /** The increment target `t` collects in one round from all `sources`, summed
      in list order. */
  function Increment(sources: seq<Node>, t: Id, alpha: real): (r: real)
    ensures |sources| == 1 ==> r == Contribution(sources[0], t, alpha)
  {
    if |sources| == 0 then 0.0
    else Increment(sources[..|sources| - 1], t, alpha) + Contribution(sources[|sources| - 1], t, alpha)
  }

  /** Applies `g` to every node, keeping the list's order. */
  function MapNodes(nodes: seq<Node>, g: Node -> Node): (r: seq<Node>)
    ensures |r| == |nodes|
    ensures forall i :: 0 <= i < |r| ==> r[i] == g(nodes[i])
  {
    seq(|nodes|, i requires 0 <= i < |nodes| => g(nodes[i]))
  }

  function ZeroActivation(n: Node): Node
  {
    n.(activation := 0.0)
  }

  /** The reset before the rounds: every activation becomes 0 and nothing else
      changes. */
  function Reset(nodes: seq<Node>): (r: seq<Node>)
    ensures |r| == |nodes|
    ensures forall i :: 0 <= i < |r| ==> r[i] == nodes[i].(activation := 0.0)
  {
    MapNodes(nodes, ZeroActivation)
  }

  /** Node `n` after adding the increment it collects from the `snapshot`. */
  function Bumped(n: Node, snapshot: seq<Node>, alpha: real): Node
  {
    n.(activation := n.activation + Increment(snapshot, n.id, alpha))
  }

  function BumpBy(snapshot: seq<Node>, alpha: real): Node -> Node
  {
    (n: Node) => Bumped(n, snapshot, alpha)
  }

  /** One round: every node's increment is computed from the same start-of-round
      snapshot, then all increments are applied. Only activations change. */
  function Round(nodes: seq<Node>, alpha: real): (r: seq<Node>)
    ensures |r| == |nodes|
    ensures forall i :: 0 <= i < |r| ==> r[i] == nodes[i].(activation := r[i].activation)
  {
    MapNodes(nodes, BumpBy(nodes, alpha))
  }

  /** `k` rounds in a row. What they keep is `RoundsKeepAllButActivation`. */
  function Rounds(start: seq<Node>, k: nat, alpha: real): (r: seq<Node>)
    ensures |r| == |start|
  {
    if k == 0 then start else Round(Rounds(start, k - 1, alpha), alpha)
  }

  /** Rounds only ever write activations. */
  lemma {:induction false} RoundsKeepAllButActivation(start: seq<Node>, k: nat, alpha: real)
    ensures forall i :: 0 <= i < |start| ==>
      Rounds(start, k, alpha)[i] == start[i].(activation := Rounds(start, k, alpha)[i].activation)
  {
    if k > 0 {
      RoundsKeepAllButActivation(start, k - 1, alpha);
    }
  }

  /** The engine: reset, then `ic` rounds at rate `alpha`. The result has the
      same nodes in the same order, with every field but `activation` kept. */
  function Propagate(nodes: seq<Node>, ic: nat, alpha: real): (r: seq<Node>)
    ensures |r| == |nodes|
    ensures forall i :: 0 <= i < |r| ==> r[i] == nodes[i].(activation := r[i].activation)
  {
    RoundsKeepAllButActivation(Reset(nodes), ic, alpha);
    Rounds(Reset(nodes), ic, alpha)
  }

  // ---------------------------------------------------------------------------
  // The imperative loop, as the handler runs it
  // ---------------------------------------------------------------------------

  /** The inner loop of the accumulation for one source node: for each key of
      its link map whose target is a node, `weight * commit + activation * alpha`
      is added to that target's entry. Keys are visited in any order. */
  method AccumulateSource(inc: map<Id, real>, ids: set<Id>, source: Node, alpha: real)
    returns (r: map<Id, real>)
    requires inc.Keys == ids
    ensures r.Keys == ids
    ensures forall t :: t in r ==> r[t] == inc[t] + Contribution(source, t, alpha)
  {
    r := inc;
    var pending := source.links.Keys;
    while pending != {}
      invariant pending <= source.links.Keys
      invariant r.Keys == ids
      invariant forall t :: t in r ==>
        r[t] == inc[t] + (if t in source.links && t !in pending then Contribution(source, t, alpha) else 0.0)
      decreases pending
    {
      var target :| target in pending;
      ghost var before := r;
      if target in ids {
        var weight := source.links[target];
        var increment := (weight as real) * (source.commit as real) + source.activation * alpha;
        assert increment == Contribution(source, target, alpha);
        r := r[target := r[target] + increment];
      }
      pending := pending - {target};
      forall t | t in r
        ensures r[t] == inc[t] + (if t in source.links && t !in pending then Contribution(source, t, alpha) else 0.0)
      {
        if t != target {
          assert r[t] == before[t];
        }
      }
    }
  }

  /** The increments of one round, accumulated as the handler does: an entry of
      0 per node id, then every source node's links are added in list order. */
  method ComputeIncrements(nodes: seq<Node>, alpha: real) returns (inc: map<Id, real>)
    ensures inc.Keys == Ids(nodes)
    ensures forall t :: t in inc ==> inc[t] == Increment(nodes, t, alpha)
  {
    var ids := Ids(nodes);
    inc := map t | t in ids :: 0.0;
    var i := 0;
    while i < |nodes|
      invariant 0 <= i <= |nodes|
      invariant inc.Keys == ids
      invariant forall t :: t in inc ==> inc[t] == Increment(nodes[..i], t, alpha)
    {
      inc := AccumulateSource(inc, ids, nodes[i], alpha);
      assert nodes[..i + 1][..i] == nodes[..i];
      i := i + 1;
    }
    assert nodes[..|nodes|] == nodes;
  }

  /** The apply step: every node's activation grows by the increment stored
      under its own id. */
  method ApplyIncrements(nodes: seq<Node>, inc: map<Id, real>) returns (r: seq<Node>)
    requires forall i :: 0 <= i < |nodes| ==> nodes[i].id in inc
    ensures |r| == |nodes|
    ensures forall i :: 0 <= i < |r| ==>
      r[i] == nodes[i].(activation := nodes[i].activation + inc[nodes[i].id])
  {
    r := [];
    var i := 0;
    while i < |nodes|
      invariant 0 <= i <= |nodes|
      invariant |r| == i
      invariant forall j :: 0 <= j < i ==>
        r[j] == nodes[j].(activation := nodes[j].activation + inc[nodes[j].id])
    {
      r := r + [nodes[i].(activation := nodes[i].activation + inc[nodes[i].id])];
      i := i + 1;
    }
  }

  /** One iteration of the handler's loop: accumulate, then apply. */
  method RunRound(nodes: seq<Node>, alpha: real) returns (r: seq<Node>)
    ensures r == Round(nodes, alpha)
  {
    var inc := ComputeIncrements(nodes, alpha);
    assert forall j :: 0 <= j < |nodes| ==> nodes[j].id in Ids(nodes);
    r := ApplyIncrements(nodes, inc);
  }

  /** The handler's synchronous body: reset, then exactly `ic` rounds of
      accumulate-then-apply. It computes the engine's result. */
  method PropagateInPlace(nodes: seq<Node>, ic: nat, alpha: real) returns (r: seq<Node>)
    ensures r == Propagate(nodes, ic, alpha)
  {
    r := [];
    var i := 0;
    while i < |nodes|
      invariant 0 <= i <= |nodes|
      invariant |r| == i
      invariant forall j :: 0 <= j < i ==> r[j] == nodes[j].(activation := 0.0)
    {
      r := r + [nodes[i].(activation := 0.0)];
      i := i + 1;
    }
    assert r == Reset(nodes);
    var round := 0;
    while round < ic
      invariant 0 <= round <= ic
      invariant r == Rounds(Reset(nodes), round, alpha)
    {
      r := RunRound(r, alpha);
      round := round + 1;
    }
  }

  // ---------------------------------------------------------------------------
  // Properties
  // ---------------------------------------------------------------------------

  /** The engine's result does not depend on the activations it is given. */
  lemma {:induction false} PropagateForgetsActivations(a: seq<Node>, b: seq<Node>, ic: nat, alpha: real)
    requires |a| == |b|
    requires forall i :: 0 <= i < |a| ==> a[i].(activation := 0.0) == b[i].(activation := 0.0)
    ensures Propagate(a, ic, alpha) == Propagate(b, ic, alpha)
  {
    assert Reset(a) == Reset(b);
  }

  /** Running the engine twice gives the same activations as running it once. */
  lemma {:induction false} PropagateIdempotent(nodes: seq<Node>, ic: nat, alpha: real)
    ensures Propagate(Propagate(nodes, ic, alpha), ic, alpha) == Propagate(nodes, ic, alpha)
  {
    var once := Propagate(nodes, ic, alpha);
    assert forall i :: 0 <= i < |once| ==> once[i].(activation := 0.0) == nodes[i].(activation := 0.0);
    PropagateForgetsActivations(once, nodes, ic, alpha);
  }

  /** No source links to `t`: its increment is 0. */
  lemma {:induction false} IncrementWithoutLinks(sources: seq<Node>, t: Id, alpha: real)
    requires forall j :: 0 <= j < |sources| ==> t !in sources[j].links
    ensures Increment(sources, t, alpha) == 0.0
  {
    if |sources| > 0 {
      IncrementWithoutLinks(sources[..|sources| - 1], t, alpha);
    }
  }

  /** A node that no node links to keeps activation 0 after any number of
      rounds: this revision of the formula gives a node nothing from its own
      commit. */
  lemma {:induction false} NoIncomingLinksStaysZero(nodes: seq<Node>, ic: nat, alpha: real, i: nat)
    requires i < |nodes|
    requires forall j :: 0 <= j < |nodes| ==> nodes[i].id !in nodes[j].links
    ensures Propagate(nodes, ic, alpha)[i].activation == 0.0
  {
    RoundsKeepZero(Reset(nodes), ic, alpha, i);
  }

  lemma {:induction false} RoundsKeepZero(start: seq<Node>, k: nat, alpha: real, i: nat)
    requires i < |start|
    requires start[i].activation == 0.0
    requires forall j :: 0 <= j < |start| ==> start[i].id !in start[j].links
    ensures Rounds(start, k, alpha)[i].activation == 0.0
  {
    if k > 0 {
      RoundsKeepZero(start, k - 1, alpha, i);
      RoundsKeepAllButActivation(start, k - 1, alpha);
      var prev := Rounds(start, k - 1, alpha);
      forall j | 0 <= j < |prev| ensures prev[i].id !in prev[j].links {
        assert prev[j].links == start[j].links;
      }
      RoundKeepsZero(prev, alpha, i);
    }
  }

  /** One round keeps at 0 a node at 0 that no node links to. */
  lemma {:induction false} RoundKeepsZero(nodes: seq<Node>, alpha: real, i: nat)
    requires i < |nodes|
    requires nodes[i].activation == 0.0
    requires forall j :: 0 <= j < |nodes| ==> nodes[i].id !in nodes[j].links
    ensures Round(nodes, alpha)[i].activation == 0.0
  {
    IncrementWithoutLinks(nodes, nodes[i].id, alpha);
    assert Round(nodes, alpha)[i] == Bumped(nodes[i], nodes, alpha);
  }

  // --- dangling links ---------------------------------------------------------

  /** Sources that contribute the same to `t` give `t` the same increment. */
  lemma {:induction false} IncrementPointwise(a: seq<Node>, b: seq<Node>, t: Id, alpha: real)
    requires |a| == |b|
    requires forall j :: 0 <= j < |a| ==> Contribution(a[j], t, alpha) == Contribution(b[j], t, alpha)
    ensures Increment(a, t, alpha) == Increment(b, t, alpha)
  {
    if |a| > 0 {
      IncrementPointwise(a[..|a| - 1], b[..|b| - 1], t, alpha);
    }
  }

  /** Two boards the engine cannot tell apart: same ids, commits and activations,
      and the same links to every id that names a node. They may differ in links
      to ids that name no node, and in every field the engine does not read. */
  predicate EngineEquivalent(a: seq<Node>, b: seq<Node>)
  {
    && |a| == |b|
    && forall i :: 0 <= i < |a| ==> SameForEngine(a[i], b[i], Ids(a))
  }

  /** Same id, commit and activation, and the same links to every id in `live`. */
  predicate SameForEngine(x: Node, y: Node, live: set<Id>)
  {
    && x.id == y.id && x.commit == y.commit && x.activation == y.activation
    && forall t :: t in live ==>
         (t in x.links <==> t in y.links) && (t in x.links ==> x.links[t] == y.links[t])
  }

  lemma {:induction false} RoundEquivalent(a: seq<Node>, b: seq<Node>, alpha: real)
    requires EngineEquivalent(a, b)
    ensures EngineEquivalent(Round(a, alpha), Round(b, alpha))
  {
    var ra, rb := Round(a, alpha), Round(b, alpha);
    forall i | 0 <= i < |a|
      ensures ra[i].activation == rb[i].activation
    {
      assert a[i].id in Ids(a);
      IncrementPointwise(a, b, a[i].id, alpha);
    }
    assert Ids(ra) == Ids(a) by {
      assert forall i :: 0 <= i < |a| ==> ra[i].id == a[i].id;
    }
  }

  lemma {:induction false} RoundsEquivalent(a: seq<Node>, b: seq<Node>, k: nat, alpha: real)
    requires EngineEquivalent(a, b)
    ensures EngineEquivalent(Rounds(a, k, alpha), Rounds(b, k, alpha))
  {
    if k > 0 {
      RoundsEquivalent(a, b, k - 1, alpha);
      RoundEquivalent(Rounds(a, k - 1, alpha), Rounds(b, k - 1, alpha), alpha);
    }
  }

  /** A link whose target names no node is skipped: the engine computes the same
      activations as for the board with that link removed. */
  lemma {:induction false} DanglingLinkIgnored(nodes: seq<Node>, k: nat, t: Id, ic: nat, alpha: real)
    requires k < |nodes|
    requires t !in Ids(nodes)
    ensures var pruned := nodes[k := nodes[k].(links := nodes[k].links - {t})];
            forall i :: 0 <= i < |nodes| ==>
              Propagate(nodes, ic, alpha)[i].activation == Propagate(pruned, ic, alpha)[i].activation
  {
    var pruned := nodes[k := nodes[k].(links := nodes[k].links - {t})];
    var a, b := Reset(nodes), Reset(pruned);
    assert Ids(a) == Ids(nodes) by {
      assert forall i :: 0 <= i < |a| ==> a[i].id == nodes[i].id;
    }
    assert EngineEquivalent(a, b);
    RoundsEquivalent(a, b, ic, alpha);
  }

  // --- edge weights -------------------------------------------------------------

  /** One source: changing its link to `t` to weight `w` moves its contribution
      to `t` by the weight difference times its commit, and its contribution to
      any other target not at all. */
  lemma {:induction false} ContributionShift(n: Node, t: Id, w: int, alpha: real, u: Id)
    requires t in n.links
    ensures var m := n.(links := n.links[t := w]);
            && Contribution(m, t, alpha)
               == Contribution(n, t, alpha) + ((w - n.links[t]) as real) * (n.commit as real)
            && (u != t ==> Contribution(m, u, alpha) == Contribution(n, u, alpha))
  {
    var m := n.(links := n.links[t := w]);
    var c := n.commit as real;
    assert (w as real) * c == (n.links[t] as real) * c + ((w - n.links[t]) as real) * c;
  }

  /** Replacing one source node moves every target's increment by the change in
      that source's contribution to it. */
  lemma {:induction false} IncrementReplaceOne(nodes: seq<Node>, k: nat, m: Node, t: Id, alpha: real)
    requires k < |nodes|
    ensures Increment(nodes[k := m], t, alpha)
            == Increment(nodes, t, alpha) + Contribution(m, t, alpha) - Contribution(nodes[k], t, alpha)
  {
    var changed := nodes[k := m];
    var last := |nodes| - 1;
    assert Increment(changed, t, alpha) == Increment(changed[..last], t, alpha) + Contribution(changed[last], t, alpha);
    assert Increment(nodes, t, alpha) == Increment(nodes[..last], t, alpha) + Contribution(nodes[last], t, alpha);
    if k == last {
      assert changed[..last] == nodes[..last];
    } else {
      assert changed[last] == nodes[last];
      assert nodes[..last][k] == nodes[k];
      assert changed[..last] == nodes[..last][k := m];
      IncrementReplaceOne(nodes[..last], k, m, t, alpha);
    }
  }

  /** The edited target: its increment moves by the weight difference times
      the source's commit. */
  lemma {:induction false} EdgeWeightShiftTarget(nodes: seq<Node>, k: nat, t: Id, w: int, alpha: real)
    requires k < |nodes|
    requires t in nodes[k].links
    ensures Increment(nodes[k := nodes[k].(links := nodes[k].links[t := w])], t, alpha)
            == Increment(nodes, t, alpha) + ((w - nodes[k].links[t]) as real) * (nodes[k].commit as real)
  {
    IncrementReplaceOne(nodes, k, nodes[k].(links := nodes[k].links[t := w]), t, alpha);
    ContributionShift(nodes[k], t, w, alpha, t);
  }

  /** Any other target: its increment does not move. */
  lemma {:induction false} EdgeWeightShiftOther(nodes: seq<Node>, k: nat, t: Id, w: int, alpha: real, u: Id)
    requires k < |nodes|
    requires t in nodes[k].links && u != t
    ensures Increment(nodes[k := nodes[k].(links := nodes[k].links[t := w])], u, alpha)
            == Increment(nodes, u, alpha)
  {
    IncrementReplaceOne(nodes, k, nodes[k].(links := nodes[k].links[t := w]), u, alpha);
    ContributionShift(nodes[k], t, w, alpha, u);
  }

  /** Changing the weight of the one link `k -> t` moves `t`'s increment by exactly
      the weight difference times the source's commit: the `activation * alpha`
      part of that link's contribution is not scaled by the weight. Every other
      target's increment is unchanged. */
  lemma {:induction false} EdgeWeightShift(nodes: seq<Node>, k: nat, t: Id, w: int, alpha: real, u: Id)
    requires k < |nodes|
    requires t in nodes[k].links
    ensures var changed := nodes[k := nodes[k].(links := nodes[k].links[t := w])];
            && Increment(changed, t, alpha)
               == Increment(nodes, t, alpha) + ((w - nodes[k].links[t]) as real) * (nodes[k].commit as real)
            && (u != t ==> Increment(changed, u, alpha) == Increment(nodes, u, alpha))
  {
    EdgeWeightShiftTarget(nodes, k, t, w, alpha);
    if u != t {
      EdgeWeightShiftOther(nodes, k, t, w, alpha, u);
    }
  }

  // --- order independence -------------------------------------------------------

  lemma {:induction false} IncrementConcat(p: seq<Node>, q: seq<Node>, t: Id, alpha: real)
    ensures Increment(p + q, t, alpha) == Increment(p, t, alpha) + Increment(q, t, alpha)
  {
    if |q| > 0 {
      assert (p + q)[..|p + q| - 1] == p + q[..|q| - 1];
      IncrementConcat(p, q[..|q| - 1], t, alpha);
    } else {
      assert p + q == p;
    }
  }

  /** The increment is a sum over the multiset of sources: reordering the node
      list does not change it. */
  lemma {:induction false} IncrementPermutation(a: seq<Node>, b: seq<Node>, t: Id, alpha: real)
    requires multiset(a) == multiset(b)
    ensures Increment(a, t, alpha) == Increment(b, t, alpha)
    decreases |a|
  {
    if |a| > 0 {
      var x := a[|a| - 1];
      assert x in multiset(b);
      var j :| 0 <= j < |b| && b[j] == x;
      var rest := b[..j] + b[j + 1..];
      assert b == b[..j] + [x] + b[j + 1..];
      assert a == a[..|a| - 1] + [x];
      assert multiset(a) == multiset(a[..|a| - 1]) + multiset{x};
      assert multiset(b) == multiset(b[..j]) + multiset{x} + multiset(b[j + 1..]);
      assert multiset(rest) == multiset(b[..j]) + multiset(b[j + 1..]);
      assert multiset(a[..|a| - 1]) == multiset(a) - multiset{x};
      assert multiset(rest) == multiset(b) - multiset{x};
      IncrementPermutation(a[..|a| - 1], rest, t, alpha);
      IncrementConcat(b[..j] + [x], b[j + 1..], t, alpha);
      IncrementConcat(b[..j], [x], t, alpha);
      IncrementConcat(b[..j], b[j + 1..], t, alpha);
      assert [x][..0] == [];
    }
  }

  lemma {:induction false} MapNodesConcat(p: seq<Node>, q: seq<Node>, g: Node -> Node)
    ensures MapNodes(p + q, g) == MapNodes(p, g) + MapNodes(q, g)
  {
  }

  /** Taking the last element off one of two orderings of the same elements,
      and that element off the other wherever it sits, leaves two orderings of
      the same elements. */
  lemma {:induction false} PermutationWithoutLast(a: seq<Node>, b: seq<Node>) returns (j: nat)
    requires |a| > 0 && multiset(a) == multiset(b)
    ensures j < |b| && b[j] == a[|a| - 1]
    ensures multiset(a[..|a| - 1]) == multiset(b[..j] + b[j + 1..])
  {
    var x := a[|a| - 1];
    assert x in multiset(b);
    j :| 0 <= j < |b| && b[j] == x;
    assert b == b[..j] + [x] + b[j + 1..];
    assert a == a[..|a| - 1] + [x];
    assert multiset(a[..|a| - 1]) == multiset(a) - multiset{x};
    assert multiset(b[..j] + b[j + 1..]) == multiset(b) - multiset{x};
  }

  /** Mapping a function over two orderings of the same nodes gives two orderings
      of the same results. */
  lemma {:induction false} MapNodesPermutation(a: seq<Node>, b: seq<Node>, g: Node -> Node)
    requires multiset(a) == multiset(b)
    ensures multiset(MapNodes(a, g)) == multiset(MapNodes(b, g))
    decreases |a|
  {
    if |a| > 0 {
      var j := PermutationWithoutLast(a, b);
      MapNodesPermutation(a[..|a| - 1], b[..j] + b[j + 1..], g);
      MapNodesPermutationStep(a, b, j, g);
    } else {
      assert |b| == |multiset(b)| == 0;
    }
  }

  /** The inductive step: the last element of `a` sits at `j` in `b`, and the
      images of the rest already agree. */
  lemma {:induction false} MapNodesPermutationStep(a: seq<Node>, b: seq<Node>, j: nat, g: Node -> Node)
    requires |a| > 0 && j < |b| && b[j] == a[|a| - 1]
    requires multiset(MapNodes(a[..|a| - 1], g)) == multiset(MapNodes(b[..j] + b[j + 1..], g))
    ensures multiset(MapNodes(a, g)) == multiset(MapNodes(b, g))
  {
    var n := |a|;
    var y := g(b[j]);
    var ra := multiset(MapNodes(a[..n - 1], g));
    assert multiset(MapNodes(a, g)) == ra + multiset{y} by {
      MapNodesWithout(a, n - 1, g);
      assert a[..n - 1] + a[n..] == a[..n - 1];
    }
    MapNodesWithout(b, j, g);
  }

  /** Mapping over a list is mapping over it without its `j`-th element, plus
      that element's image. */
  lemma {:induction false} MapNodesWithout(b: seq<Node>, j: nat, g: Node -> Node)
    requires j < |b|
    ensures multiset(MapNodes(b, g)) == multiset(MapNodes(b[..j] + b[j + 1..], g)) + multiset{g(b[j])}
  {
    var p, q := b[..j], b[j + 1..];
    assert b == p + [b[j]] + q;
    MapNodesConcat(p + [b[j]], q, g);
    MapNodesConcat(p, [b[j]], g);
    MapNodesConcat(p, q, g);
    var mp, mx, mq := MapNodes(p, g), MapNodes([b[j]], g), MapNodes(q, g);
    assert mx == [g(b[j])];
    assert multiset(MapNodes(b, g)) == multiset(mp) + multiset(mx) + multiset(mq);
    assert multiset(MapNodes(p + q, g)) == multiset(mp) + multiset(mq);
  }

  lemma {:induction false} RoundPermutation(a: seq<Node>, b: seq<Node>, alpha: real)
    requires multiset(a) == multiset(b)
    ensures multiset(Round(a, alpha)) == multiset(Round(b, alpha))
  {
    var ga, gb := BumpBy(a, alpha), BumpBy(b, alpha);
    forall j | 0 <= j < |b| ensures ga(b[j]) == gb(b[j]) {
      IncrementPermutation(a, b, b[j].id, alpha);
    }
    assert MapNodes(b, ga) == MapNodes(b, gb);
    MapNodesPermutation(a, b, ga);
  }

  lemma {:induction false} RoundsPermutation(a: seq<Node>, b: seq<Node>, k: nat, alpha: real)
    requires multiset(a) == multiset(b)
    ensures multiset(Rounds(a, k, alpha)) == multiset(Rounds(b, k, alpha))
  {
    if k > 0 {
      RoundsPermutation(a, b, k - 1, alpha);
      RoundPermutation(Rounds(a, k - 1, alpha), Rounds(b, k - 1, alpha), alpha);
    }
  }

  /** The result does not depend on the order of the node list: permuting the
      input permutes the output. */
  lemma {:induction false} PropagateOrderIndependent(a: seq<Node>, b: seq<Node>, ic: nat, alpha: real)
    requires multiset(a) == multiset(b)
    ensures multiset(Propagate(a, ic, alpha)) == multiset(Propagate(b, ic, alpha))
  {
    MapNodesPermutation(a, b, ZeroActivation);
    RoundsPermutation(Reset(a), Reset(b), ic, alpha);
  }

  // --- the board's seed graph -----------------------------------------------------

  /** The board as an empty save first loads it: the three seed nodes
      app_dev (commit 50, linking ai_theory with weight 1), ai_theory (30,
      linking app_dev with 2) and exercise (80, linking app_dev with 1). */
  function SeedGraph(): (r: seq<Node>)
    ensures |r| == 3
  {
    BoardState.InitializeState(None)
  }

  lemma {:induction false} IncrementOfThree(x: Node, y: Node, z: Node, t: Id, alpha: real)
    ensures Increment([x, y, z], t, alpha)
            == Contribution(x, t, alpha) + Contribution(y, t, alpha) + Contribution(z, t, alpha)
  {
    assert [x, y, z][..2] == [x, y];
    assert [x, y][..1] == [x];
    assert [x][..0] == [];
    assert Increment([x], t, alpha) == Contribution(x, t, alpha);
    assert Increment([x, y], t, alpha) == Contribution(x, t, alpha) + Contribution(y, t, alpha);
  }

  /** The seed graph with the given activations. */
  function SeedAt(a0: real, a1: real, a2: real): seq<Node>
  {
    var g := SeedGraph();
    [g[0].(activation := a0), g[1].(activation := a1), g[2].(activation := a2)]
  }

  /** One round on the seed graph: app_dev collects 2*30 + 1*80 plus its two
      sources' activations times alpha; ai_theory collects 1*50 plus app_dev's
      activation times alpha; exercise collects nothing. */
  lemma {:induction false} SeedRound(a0: real, a1: real, a2: real, alpha: real)
    ensures Round(SeedAt(a0, a1, a2), alpha)
            == SeedAt(a0 + 140.0 + (a1 + a2) * alpha, a1 + 50.0 + a0 * alpha, a2)
  {
    var s := SeedAt(a0, a1, a2);
    IncrementOfThree(s[0], s[1], s[2], "app_dev", alpha);
    IncrementOfThree(s[0], s[1], s[2], "ai_theory", alpha);
    IncrementOfThree(s[0], s[1], s[2], "exercise", alpha);
    assert s == [s[0], s[1], s[2]];
    assert Increment(s, "app_dev", alpha) == 140.0 + (a1 + a2) * alpha;
    assert Increment(s, "ai_theory", alpha) == 50.0 + a0 * alpha;
    assert Increment(s, "exercise", alpha) == 0.0;
    var r := Round(s, alpha);
    var e := SeedAt(a0 + 140.0 + (a1 + a2) * alpha, a1 + 50.0 + a0 * alpha, a2);
    assert r[0] == Bumped(s[0], s, alpha) == e[0];
    assert r[1] == Bumped(s[1], s, alpha) == e[1];
    assert r[2] == Bumped(s[2], s, alpha) == e[2];
  }

  /** Three rounds at rate 0.2 on the seed graph, round by round:
      app_dev 140, 290, 455.6; ai_theory 50, 128, 236; exercise stays 0. */
  lemma SeedGraphActivations()
    ensures var r := Propagate(SeedGraph(), BoardRounds, BoardRate);
            r[0].activation == 455.6 && r[1].activation == 236.0 && r[2].activation == 0.0
  {
    var g := SeedGraph();
    var r0 := Reset(g);
    assert r0 == SeedAt(0.0, 0.0, 0.0) by {
      assert r0[0] == g[0] && r0[1] == g[1] && r0[2] == g[2];
    }
    var r1 := Rounds(r0, 1, BoardRate);
    assert r1 == SeedAt(140.0, 50.0, 0.0) by {
      assert r1 == Round(Rounds(r0, 0, BoardRate), BoardRate) && Rounds(r0, 0, BoardRate) == r0;
      SeedRound(0.0, 0.0, 0.0, BoardRate);
    }
    var r2 := Rounds(r0, 2, BoardRate);
    assert r2 == SeedAt(290.0, 128.0, 0.0) by {
      assert r2 == Round(r1, BoardRate);
      SeedRound(140.0, 50.0, 0.0, BoardRate);
    }
    var r3 := Rounds(r0, 3, BoardRate);
    assert r3 == SeedAt(455.6, 236.0, 0.0) by {
      assert r3 == Round(r2, BoardRate);
      SeedRound(290.0, 128.0, 0.0, BoardRate);
    }
    assert Propagate(g, BoardRounds, BoardRate) == r3;
  }
}
