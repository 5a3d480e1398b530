/** tests/smeshing_test.go: prettyHex, collectProposals, the collector that
    sorts a peer's proposals into created and included ones, grouping the
    created ones by layer, requireEqualEligibilities, and the per-layer
    length check between included and created proposals. */
module Smeshing {
  import opened Prelude
  import opened Mesh
  import opened Streams
  import opened Testify

  /** The last layer whose proposals are collected. */
  const Limit: Uint32 := 15

  // ---------------------------------------------------------------------
  // prettyHex
  // ---------------------------------------------------------------------

  /** prettyHex: "0x" and the lower-case hex of the bytes, which decodes
      back to them. */
  function PrettyHex(b: seq<Byte>): (s: string)
    ensures |s| == 2 + 2 * |b| && s[..2] == "0x"
    ensures forall i :: 2 <= i < |s| ==> IsLowerHex(s[i])
    ensures Unhex(s[2..]) == b
  {
    var s := "0x" + Hex(b);
    assert s[2..] == Hex(b);
    UnhexHex(b);
    s
  }

  /** Two byte strings print the same exactly when they are equal. */
  lemma PrettyHexInjective(a: seq<Byte>, b: seq<Byte>)
    ensures PrettyHex(a) == PrettyHex(b) <==> a == b
  {
    if PrettyHex(a) == PrettyHex(b) {
      assert Unhex(PrettyHex(a)[2..]) == Unhex(PrettyHex(b)[2..]);
    }
  }

  // ---------------------------------------------------------------------
  // collectProposals and the collector
  // ---------------------------------------------------------------------

  /** A collector that answers only whether to go on, as collectProposals
      takes it, seen as a step whose error is always nil. */
  function AsStep<S>(collector: (S, Proposal) -> (S, bool)): (S, Proposal) -> Verdict<S>
  {
    (s, p) => Verdict(collector(s, p).0, collector(s, p).1, None)
  }

  /** collectProposals: the receive loop, returning nil when the collector
      says stop. */
  method CollectProposals<S>(collector: (S, Proposal) -> (S, bool), s: S, stream: Stream<Proposal>)
    returns (o: Outcome<S>)
    ensures o == Collect(AsStep(collector), s, stream)
    ensures o.err.None? <==> stream.Opened? && StoppedAt(AsStep(collector), s, stream.items, o)
  {
    o := Receive(AsStep(collector), s, stream);
    if stream.Opened? {
      FoldOutcome(AsStep(collector), s, stream.items);
    }
  }

  /** What a peer's collector fills: the proposals it sends to the shared
      created channel, in order, and its included proposals per layer. */
  datatype Collected = Collected(created: seq<Proposal>, included: map<Uint32, seq<Proposal>>)

  /** A map's entry, or the empty slice Go reads for a missing key. */
  function Lookup(m: map<Uint32, seq<Proposal>>, l: Uint32): seq<Proposal>
  {
    if l in m then m[l] else []
  }

  /** The collector: stop at the first proposal past layer 15; send a
      created proposal to the channel; append any other to its layer. */
  function Classify(c: Collected, p: Proposal): (Collected, bool)
  {
    if p.layer > Limit then (c, false)
    else if p.status == Created then (c.(created := c.created + [p]), true)
    else (c.(included := c.included[p.layer := Lookup(c.included, p.layer) + [p]]), true)
  }

  function CreatedOf(ps: seq<Proposal>): seq<Proposal>
  {
    if |ps| == 0 then []
    else (if ps[0].status == Created then [ps[0]] else []) + CreatedOf(ps[1..])
  }

  function IncludedAt(ps: seq<Proposal>, l: Uint32): seq<Proposal>
  {
    if |ps| == 0 then []
    else (if ps[0].status != Created && ps[0].layer == l then [ps[0]] else []) + IncludedAt(ps[1..], l)
  }

  /** The collector goes on exactly while no proposal is past layer 15;
      meanwhile the created proposals have gone to the channel in order and
      each layer's list has gained the other proposals of that layer, in
      order. */
  lemma ClassifyContinues(c: Collected, ps: seq<Proposal>)
    ensures Continues(AsStep(Classify), c, ps) <==> forall j :: 0 <= j < |ps| ==> ps[j].layer <= Limit
    ensures Continues(AsStep(Classify), c, ps) ==>
      var r := Feed(AsStep(Classify), c, ps);
      && r.created == c.created + CreatedOf(ps)
      && forall l :: Lookup(r.included, l) == Lookup(c.included, l) + IncludedAt(ps, l)
  {
    ClassifyGoesOn(c, ps);
    ClassifyCreated(c, ps);
    forall l ensures Continues(AsStep(Classify), c, ps) ==>
      Lookup(Feed(AsStep(Classify), c, ps).included, l) == Lookup(c.included, l) + IncludedAt(ps, l)
    {
      ClassifyIncluded(c, ps, l);
    }
  }

  /** One proposal: the collector goes on iff it is at most at layer 15. */
  lemma ClassifyVerdict(c: Collected, p: Proposal)
    ensures AsStep(Classify)(c, p).cont <==> p.layer <= Limit
    ensures AsStep(Classify)(c, p).state == Classify(c, p).0
  {
    var step := AsStep(Classify);
    assert step(c, p) == Verdict(Classify(c, p).0, Classify(c, p).1, None);
  }

  lemma {:induction false} ClassifyGoesOn(c: Collected, ps: seq<Proposal>)
    decreases |ps|
    ensures Continues(AsStep(Classify), c, ps) <==> forall j :: 0 <= j < |ps| ==> ps[j].layer <= Limit
  {
    if |ps| > 0 {
      var rest := ps[1..];
      ClassifyVerdict(c, ps[0]);
      ClassifyGoesOn(Classify(c, ps[0]).0, rest);
      assert forall j :: 0 <= j < |rest| ==> rest[j] == ps[j + 1];
    }
  }

  lemma {:induction false} ClassifyCreated(c: Collected, ps: seq<Proposal>)
    decreases |ps|
    ensures Continues(AsStep(Classify), c, ps) ==>
      Feed(AsStep(Classify), c, ps).created == c.created + CreatedOf(ps)
  {
    if |ps| > 0 && Continues(AsStep(Classify), c, ps) {
      var rest := ps[1..];
      var c' := Classify(c, ps[0]).0;
      ClassifyVerdict(c, ps[0]);
      ClassifyCreated(c', rest);
      assert c'.created == c.created + (if ps[0].status == Created then [ps[0]] else []);
    }
  }

  lemma {:induction false} ClassifyIncluded(c: Collected, ps: seq<Proposal>, l: Uint32)
    decreases |ps|
    ensures Continues(AsStep(Classify), c, ps) ==>
      Lookup(Feed(AsStep(Classify), c, ps).included, l) == Lookup(c.included, l) + IncludedAt(ps, l)
  {
    if |ps| > 0 && Continues(AsStep(Classify), c, ps) {
      var p := ps[0];
      var rest := ps[1..];
      var c' := Classify(c, p).0;
      ClassifyVerdict(c, p);
      assert Feed(AsStep(Classify), c, ps) == Feed(AsStep(Classify), c', rest);
      ClassifyIncluded(c', rest, l);
      if p.status != Created && p.layer == l {
        assert c'.included == c.included[l := Lookup(c.included, l) + [p]];
        assert IncludedAt(ps, l) == [p] + IncludedAt(rest, l);
      } else {
        assert Lookup(c'.included, l) == Lookup(c.included, l);
        assert IncludedAt(ps, l) == IncludedAt(rest, l);
      }
    }
  }

  /** A peer's goroutine ends with nil exactly when a proposal past layer 15
      arrived; otherwise with the receive error (io.EOF at the end). */
  lemma ClassifyOutcome(stream: Stream<Proposal>)
    ensures var o := Collect(AsStep(Classify), Collected([], map[]), stream);
      o.err.None? <==> stream.Opened? && o.consumed >= 1 && stream.items[o.consumed - 1].event.layer > Limit
  {
    if stream.Opened? {
      var items := stream.items;
      var c0 := Collected([], map[]);
      var o := Fold(AsStep(Classify), c0, items);
      var k := o.consumed;
      FoldOutcome(AsStep(Classify), c0, items);
      if Exhausted(AsStep(Classify), c0, items, o) {
        if k >= 1 {
          assert items[..k] == items;
          ClassifyGoesOn(c0, EventsOf(items));
          assert EventsOf(items)[k - 1] == items[k - 1].event;
        }
      } else if FailedAt(AsStep(Classify), c0, items, o) {
        if k >= 1 {
          ClassifyGoesOn(c0, EventsOf(items[..k]));
          assert EventsOf(items[..k])[k - 1] == items[k - 1].event;
        }
      } else {
        ClassifyVerdict(Feed(AsStep(Classify), c0, EventsOf(items[..k - 1])), items[k - 1].event);
        assert o.err == None;
      }
    }
  }

  // ---------------------------------------------------------------------
  // Grouping the created proposals by layer
  // ---------------------------------------------------------------------

  /** The proposals of layer l, in order. */
  function OfLayer(ps: seq<Proposal>, l: Uint32): seq<Proposal>
  {
    if |ps| == 0 then []
    else OfLayer(ps[..|ps| - 1], l) + (if ps[|ps| - 1].layer == l then [ps[|ps| - 1]] else [])
  }

  function Layers(ps: seq<Proposal>): set<Uint32>
  {
    set j | 0 <= j < |ps| :: ps[j].layer
  }

  lemma LayersSnoc(ps: seq<Proposal>, p: Proposal)
    ensures Layers(ps + [p]) == Layers(ps) + {p.layer}
  {
    var qs := ps + [p];
    assert qs[|ps|] == p;
    forall l | l in Layers(qs) ensures l in Layers(ps) + {p.layer} {
      var j :| 0 <= j < |qs| && qs[j].layer == l;
      if j < |ps| {
        assert ps[j] == qs[j];
      }
    }
    forall l | l in Layers(ps) ensures l in Layers(qs) {
      var j :| 0 <= j < |ps| && ps[j].layer == l;
      assert qs[j] == ps[j];
    }
  }

  lemma OfLayerSnoc(ps: seq<Proposal>, p: Proposal)
    ensures forall l :: OfLayer(ps + [p], l) == OfLayer(ps, l) + (if p.layer == l then [p] else [])
  {
    assert (ps + [p])[..|ps|] == ps;
  }

  /** The loop over the created channel: each proposal appended to its
      layer's list. `received` is the order the channel delivered them in. */
  method GroupByLayer(received: seq<Proposal>) returns (created: map<Uint32, seq<Proposal>>)
    ensures created.Keys == Layers(received)
    ensures forall l :: Lookup(created, l) == OfLayer(received, l)
  {
    created := map[];
    for i := 0 to |received|
      invariant created.Keys == Layers(received[..i])
      invariant forall l :: Lookup(created, l) == OfLayer(received[..i], l)
    {
      var p := received[i];
      assert received[..i + 1] == received[..i] + [p];
      LayersSnoc(received[..i], p);
      OfLayerSnoc(received[..i], p);
      created := created[p.layer := Lookup(created, p.layer) + [p]];
    }
    assert received[..|received|] == received;
  }

  // ---------------------------------------------------------------------
  // requireEqualEligibilities
  // ---------------------------------------------------------------------

  /** The proposals of the layers in the given order, concatenated. */
  function Flatten(proposals: map<Uint32, seq<Proposal>>, order: seq<Uint32>): seq<Proposal>
    requires forall i :: 0 <= i < |order| ==> order[i] in proposals
  {
    if |order| == 0 then [] else Flatten(proposals, order[..|order| - 1]) + proposals[order[|order| - 1]]
  }

  function Smeshers(ps: seq<Proposal>): set<seq<Byte>>
  {
    set j | 0 <= j < |ps| :: ps[j].smesher
  }

  /** The eligibilities the smesher's proposals carry, summed. */
  function EligibilitiesOf(ps: seq<Proposal>, smesher: seq<Byte>): nat
  {
    if |ps| == 0 then 0
    else
      var last := ps[|ps| - 1];
      EligibilitiesOf(ps[..|ps| - 1], smesher) + (if last.smesher == smesher then last.eligibilities else 0)
  }

  /** The aggregate over `done` gains one proposal. */
  lemma TallyOne(agg: map<seq<Byte>, int>, done: seq<Proposal>, p: Proposal)
    requires agg.Keys == Smeshers(done)
    requires forall s :: s in agg ==> agg[s] == EligibilitiesOf(done, s)
    ensures var agg' := agg[p.smesher := (if p.smesher in agg then agg[p.smesher] else 0) + p.eligibilities];
      && agg'.Keys == Smeshers(done + [p])
      && forall s :: s in agg' ==> agg'[s] == EligibilitiesOf(done + [p], s)
  {
    var d := done + [p];
    assert d[..|d| - 1] == done;
    assert Smeshers(d) == Smeshers(done) + {p.smesher} by {
      assert d[|done|] == p;
      forall s | s in Smeshers(d) ensures s in Smeshers(done) + {p.smesher} {
        var j :| 0 <= j < |d| && d[j].smesher == s;
        if j < |done| {
          assert done[j] == d[j];
        }
      }
      forall s | s in Smeshers(done) ensures s in Smeshers(d) {
        var j :| 0 <= j < |done| && done[j].smesher == s;
        assert d[j] == done[j];
      }
    }
    if p.smesher !in agg {
      assert EligibilitiesOf(done, p.smesher) == 0 by {
        NotASmesher(done, p.smesher);
      }
    }
  }

  lemma {:induction false} NotASmesher(ps: seq<Proposal>, smesher: seq<Byte>)
    requires smesher !in Smeshers(ps)
    ensures EligibilitiesOf(ps, smesher) == 0
  {
    if |ps| > 0 {
      var init := ps[..|ps| - 1];
      assert smesher !in Smeshers(init) by {
        forall j | 0 <= j < |init| ensures init[j].smesher != smesher {
          assert init[j] == ps[j];
        }
      }
      NotASmesher(init, smesher);
      assert ps[|ps| - 1].smesher in Smeshers(ps);
    }
  }

  /** The aggregation loops: every proposal's eligibility count added to
      its smesher's total, layers visited in map iteration order `order`. */
  method AggregateEligibilities(proposals: map<Uint32, seq<Proposal>>, order: seq<Uint32>)
    returns (aggregated: map<seq<Byte>, int>)
    requires IsIterationOrder(order, proposals)
    ensures aggregated.Keys == Smeshers(Flatten(proposals, order))
    ensures forall s :: s in aggregated ==> aggregated[s] == EligibilitiesOf(Flatten(proposals, order), s)
  {
    aggregated := map[];
    for k := 0 to |order|
      invariant aggregated.Keys == Smeshers(Flatten(proposals, order[..k]))
      invariant forall s :: s in aggregated ==> aggregated[s] == EligibilitiesOf(Flatten(proposals, order[..k]), s)
    {
      var perlayer := proposals[order[k]];
      ghost var before := Flatten(proposals, order[..k]);
      assert before + perlayer[..0] == before;
      for j := 0 to |perlayer|
        invariant aggregated.Keys == Smeshers(before + perlayer[..j])
        invariant forall s :: s in aggregated ==> aggregated[s] == EligibilitiesOf(before + perlayer[..j], s)
      {
        var p := perlayer[j];
        TallyOne(aggregated, before + perlayer[..j], p);
        assert before + perlayer[..j] + [p] == before + perlayer[..j + 1];
        aggregated := aggregated[p.smesher := (if p.smesher in aggregated then aggregated[p.smesher] else 0) + p.eligibilities];
      }
      assert order[..k + 1][..k] == order[..k];
      assert perlayer[..|perlayer|] == perlayer;
    }
    assert order[..|order|] == order;
  }

  /** The check loop: the first smesher visited (in iteration order `order`)
      sets the reference and require.Equal stops the test at the first one
      whose total differs, reported by its position in that order. It
      passes exactly when all totals are equal, an empty map included. */
  method CheckEqualEligibilities(aggregated: map<seq<Byte>, int>, order: seq<seq<Byte>>)
    returns (failure: Option<Failure>)
    requires IsIterationOrder(order, aggregated)
    requires forall s :: s in aggregated ==> aggregated[s] >= 0
    ensures failure.None? <==> forall a, b :: a in aggregated && b in aggregated ==> aggregated[a] == aggregated[b]
    ensures failure.Some? ==>
      exists k :: 0 < k < |order| && failure == Some(NotEqual(k)) && aggregated[order[k]] != aggregated[order[0]]
  {
    var reference := -1;
    for k := 0 to |order|
      invariant k == 0 ==> reference == -1
      invariant k > 0 ==> reference == aggregated[order[0]]
      invariant forall j :: 0 <= j < k ==> aggregated[order[j]] == aggregated[order[0]]
    {
      var total := aggregated[order[k]];
      if reference < 0 {
        reference := total;
      } else if reference != total {
        return Some(NotEqual(k));
      }
    }
    forall a, b | a in aggregated && b in aggregated ensures aggregated[a] == aggregated[b] {
      var i :| 0 <= i < |order| && order[i] == a;
      var j :| 0 <= j < |order| && order[j] == b;
    }
    failure := None;
  }

  // ---------------------------------------------------------------------
  // The per-layer length check
  // ---------------------------------------------------------------------

  /** For each peer in turn and each created layer in iteration order
      `order`, require.Len stops the test at the first layer whose included
      list does not have as many proposals as the created one. */
  method CheckIncludedLengths(includedAll: seq<map<Uint32, seq<Proposal>>>, created: map<Uint32, seq<Proposal>>,
                              order: seq<Uint32>)
    returns (failure: Option<Failure>)
    requires IsIterationOrder(order, created)
    ensures failure.None? <==>
      forall i, l :: 0 <= i < |includedAll| && l in created ==> |Lookup(includedAll[i], l)| == |created[l]|
    ensures failure.Some? ==>
      exists i, l :: && 0 <= i < |includedAll| && l in created
                     && failure == Some(WrongLength(|created[l]|, |Lookup(includedAll[i], l)|))
                     && |Lookup(includedAll[i], l)| != |created[l]|
  {
    for i := 0 to |includedAll|
      invariant forall i', l :: 0 <= i' < i && l in created ==> |Lookup(includedAll[i'], l)| == |created[l]|
    {
      for k := 0 to |order|
        invariant forall j :: 0 <= j < k ==> |Lookup(includedAll[i], order[j])| == |created[order[j]]|
      {
        var l := order[k];
        if |Lookup(includedAll[i], l)| != |created[l]| {
          return Some(WrongLength(|created[l]|, |Lookup(includedAll[i], l)|));
        }
      }
      forall l | l in created ensures |Lookup(includedAll[i], l)| == |created[l]| {
        var j :| 0 <= j < |order| && order[j] == l;
      }
    }
    failure := None;
  }
}
