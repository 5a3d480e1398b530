/** tests/nodes_test.go. TestAddNodes: peer 0's trigger that adds the late
    smeshers at the first layer from 11 on, the per-peer collectors of
    created proposals up to layer 35, the map from epoch to the smeshers
    that created proposals in it, and the checks on its sizes for epochs 3
    to 7. TestFailedNodes: the names of the nodes to fail, the hash
    collectors of the surviving peers (Partition's confirmed-layer
    collector, with layer 23 as its last) and their comparison, whose
    message names the wrong peer as written. */
module Nodes {
  import opened Prelude
  import opened Mesh
  import opened Streams
  import opened Testify
  import opened Smeshing
  import Partition
  import Recording

  const EpochBeforeJoin: Uint64 := 5
  const LastEpoch: Uint64 := 7
  const BeforeAdding: Uint32 := 11
  /** Four epochs after the addition the new smeshers have fully joined. */
  const FullyJoined: Uint32 := BeforeAdding + 16
  const LastLayer: Uint32 := FullyJoined + 8

  const FailAt: Uint32 := 15
  /** The last layer the surviving peers wait for. */
  const LastFailedLayer: Uint32 := FailAt + 8

  // ---------------------------------------------------------------------
  // Adding smeshers
  // ---------------------------------------------------------------------

  /** One call of peer 0's trigger, counting the AddSmeshers calls: the
      first layer from 11 on adds the smeshers and ends the goroutine with
      the error of that call (`addErr`). */
  function AddStep(addErr: Option<string>, additions: nat, l: Layer): Verdict<nat>
  {
    if l.number >= BeforeAdding then Verdict(additions + 1, false, addErr)
    else Verdict(additions, true, None)
  }

  function AddTrigger(addErr: Option<string>): (nat, Layer) -> Verdict<nat>
  {
    (n: nat, l: Layer) => AddStep(addErr, n, l)
  }

  /** From any count: AddSmeshers is called at most once, exactly when a
      layer from 11 on is handed over, and that layer is the last one; the
      goroutine then ends with that call's error, and otherwise with the
      receive error. */
  lemma {:induction false} AddFold(addErr: Option<string>, n: nat, items: seq<Recv<Layer>>)
    decreases |items|
    ensures var o := Fold(AddTrigger(addErr), n, items);
      && (o.state == n || o.state == n + 1)
      && (o.state == n + 1 <==> o.consumed >= 1 && items[o.consumed - 1].event.number >= BeforeAdding)
      && (o.state == n + 1 ==> o.err == addErr)
      && (o.state == n ==> o.err.Some?)
      && (forall j :: 0 <= j < o.consumed - 1 ==> items[j].event.number < BeforeAdding)
  {
    if |items| > 0 && items[0].Event? && items[0].event.number < BeforeAdding {
      var rest := items[1..];
      AddFold(addErr, n, rest);
      assert forall j :: 0 <= j < |rest| ==> rest[j] == items[j + 1];
    }
  }

  /** Peer 0's trigger from the start: the late smeshers are added at most
      once, exactly when a layer from 11 on arrived, at the first such
      layer; the goroutine then ends with AddSmeshers' error. */
  lemma AddTriggerOutcome(addErr: Option<string>, stream: Stream<Layer>)
    ensures var o := Collect(AddTrigger(addErr), 0, stream);
      && o.state <= 1
      && (o.state == 1 <==>
            stream.Opened? && o.consumed >= 1 && stream.items[o.consumed - 1].event.number >= BeforeAdding)
      && (o.state == 1 ==> o.err == addErr)
      && (o.state == 0 ==> o.err.Some?)
      && (stream.Opened? ==> forall j :: 0 <= j < o.consumed - 1 ==> stream.items[j].event.number < BeforeAdding)
  {
    if stream.Opened? {
      AddFold(addErr, 0, stream.items);
    }
  }

  // ---------------------------------------------------------------------
  // Collecting created proposals
  // ---------------------------------------------------------------------

  /** One call of a peer's proposal collector: a proposal past layer 35
      ends it with nil; created proposals are appended to the peer's list,
      the others passed over. */
  function CreatedStep(ps: seq<Proposal>, p: Proposal): Verdict<seq<Proposal>>
  {
    if p.layer > LastLayer then Verdict(ps, false, None)
    else if p.status == Created then Verdict(ps + [p], true, None)
    else Verdict(ps, true, None)
  }

  /** The collector goes on exactly while no proposal is past layer 35,
      and meanwhile has appended the created ones in order. */
  lemma {:induction false} CreatedContinues(ps: seq<Proposal>, es: seq<Proposal>)
    decreases |es|
    ensures Continues(CreatedStep, ps, es) <==> forall j :: 0 <= j < |es| ==> es[j].layer <= LastLayer
    ensures Continues(CreatedStep, ps, es) ==> Feed(CreatedStep, ps, es) == ps + CreatedOf(es)
  {
    if |es| > 0 {
      var rest := es[1..];
      CreatedContinues(CreatedStep(ps, es[0]).state, rest);
      assert forall j :: 0 <= j < |rest| ==> rest[j] == es[j + 1];
      if Continues(CreatedStep, ps, es) {
        assert ps + CreatedOf(es) == (ps + (if es[0].status == Created then [es[0]] else [])) + CreatedOf(rest);
      }
    }
  }

  /** A peer's collector ends with nil exactly when a proposal past layer
      35 arrived, and its list then holds the created proposals before it,
      in order, all at most at layer 35. */
  lemma CreatedOutcome(stream: Stream<Proposal>)
    ensures var o := Collect(CreatedStep, [], stream);
      && (o.err.None? <==>
            stream.Opened? && o.consumed >= 1 && stream.items[o.consumed - 1].event.layer > LastLayer)
      && (o.err.None? ==>
            && (forall j :: 0 <= j < o.consumed - 1 ==> stream.items[j].event.layer <= LastLayer)
            && o.state == CreatedOf(EventsOf(stream.items[..o.consumed - 1])))
  {
    if stream.Opened? {
      var items := stream.items;
      var o := Fold(CreatedStep, [], items);
      FoldOutcome(CreatedStep, [], items);
      if Exhausted(CreatedStep, [], items, o) {
        CreatedContinues([], EventsOf(items));
      } else if FailedAt(CreatedStep, [], items, o) {
        CreatedContinues([], EventsOf(items[..o.consumed]));
      } else {
        CreatedContinues([], EventsOf(items[..o.consumed - 1]));
      }
    }
  }

  // ---------------------------------------------------------------------
  // Unique smeshers per epoch
  // ---------------------------------------------------------------------

  /** The peers' lists one after the other, in peer order. */
  function Concat(created: seq<seq<Proposal>>): seq<Proposal>
  {
    if |created| == 0 then [] else Concat(created[..|created| - 1]) + created[|created| - 1]
  }

  /** The map after entering every proposal's smesher, printed, in the set
      of its epoch. */
  function UniqueOf(ps: seq<Proposal>): map<Uint64, set<string>>
  {
    if |ps| == 0 then map[]
    else
      var m := UniqueOf(ps[..|ps| - 1]);
      var p := ps[|ps| - 1];
      m[p.epoch := (if p.epoch in m then m[p.epoch] else {}) + {PrettyHex(p.smesher)}]
  }

  /** The smesher ids, and their printed forms, of the proposals of an
      epoch. */
  function IdsAt(ps: seq<Proposal>, e: Uint64): set<seq<Byte>>
  {
    set j | 0 <= j < |ps| && ps[j].epoch == e :: ps[j].smesher
  }

  function HexIdsAt(ps: seq<Proposal>, e: Uint64): set<string>
  {
    set j | 0 <= j < |ps| && ps[j].epoch == e :: PrettyHex(ps[j].smesher)
  }

  /** Appending a proposal adds its smesher, and its printed id, to the
      sets of its own epoch and to no other. */
  lemma IdsAtSnoc(ps: seq<Proposal>, e: Uint64)
    requires |ps| > 0
    ensures IdsAt(ps, e) == IdsAt(ps[..|ps| - 1], e) + (if ps[|ps| - 1].epoch == e then {ps[|ps| - 1].smesher} else {})
  {
    var init := ps[..|ps| - 1];
    forall id | id in IdsAt(ps, e)
      ensures id in IdsAt(init, e) + (if ps[|ps| - 1].epoch == e then {ps[|ps| - 1].smesher} else {})
    {
      var j :| 0 <= j < |ps| && ps[j].epoch == e && ps[j].smesher == id;
      if j < |init| {
        assert init[j] == ps[j];
      }
    }
    forall id | id in IdsAt(init, e) ensures id in IdsAt(ps, e) {
      var j :| 0 <= j < |init| && init[j].epoch == e && init[j].smesher == id;
      assert ps[j] == init[j];
    }
  }

  lemma HexIdsAtSnoc(ps: seq<Proposal>, e: Uint64)
    requires |ps| > 0
    ensures HexIdsAt(ps, e)
      == HexIdsAt(ps[..|ps| - 1], e) + (if ps[|ps| - 1].epoch == e then {PrettyHex(ps[|ps| - 1].smesher)} else {})
  {
    var init := ps[..|ps| - 1];
    forall h | h in HexIdsAt(ps, e)
      ensures h in HexIdsAt(init, e) + (if ps[|ps| - 1].epoch == e then {PrettyHex(ps[|ps| - 1].smesher)} else {})
    {
      var j :| 0 <= j < |ps| && ps[j].epoch == e && PrettyHex(ps[j].smesher) == h;
      if j < |init| {
        assert init[j] == ps[j];
      }
    }
    forall h | h in HexIdsAt(init, e) ensures h in HexIdsAt(ps, e) {
      var j :| 0 <= j < |init| && init[j].epoch == e && PrettyHex(init[j].smesher) == h;
      assert ps[j] == init[j];
    }
  }

  /** The map has an entry for exactly the epochs of the proposals, each
      holding the printed ids of that epoch's smeshers. */
  lemma {:induction false} UniqueOfMeaning(ps: seq<Proposal>)
    ensures forall e :: e in UniqueOf(ps) <==> exists j :: 0 <= j < |ps| && ps[j].epoch == e
    ensures forall e :: e in UniqueOf(ps) ==> UniqueOf(ps)[e] == HexIdsAt(ps, e)
  {
    if |ps| > 0 {
      var init := ps[..|ps| - 1];
      var p := ps[|ps| - 1];
      UniqueOfMeaning(init);
      forall e ensures e in UniqueOf(ps) <==> exists j :: 0 <= j < |ps| && ps[j].epoch == e {
        if e in UniqueOf(init) && e != p.epoch {
          var j :| 0 <= j < |init| && init[j].epoch == e;
          assert ps[j] == init[j];
        }
        if j :| 0 <= j < |ps| && ps[j].epoch == e {
          if j < |init| {
            assert init[j] == ps[j];
          }
        }
      }
      forall e | e in UniqueOf(ps) ensures UniqueOf(ps)[e] == HexIdsAt(ps, e) {
        HexIdsAtSnoc(ps, e);
        if e == p.epoch && e !in UniqueOf(init) {
          assert HexIdsAt(init, e) == {} by {
            if h :| h in HexIdsAt(init, e) {
              assert false;
            }
          }
        }
      }
    }
  }

  /** Printing is injective, so each epoch's set has one entry per
      distinct smesher id. */
  lemma {:induction false} DistinctSmeshers(ps: seq<Proposal>, e: Uint64)
    ensures |HexIdsAt(ps, e)| == |IdsAt(ps, e)|
  {
    if |ps| > 0 {
      var init := ps[..|ps| - 1];
      var p := ps[|ps| - 1];
      DistinctSmeshers(init, e);
      IdsAtSnoc(ps, e);
      HexIdsAtSnoc(ps, e);
      if p.epoch == e {
        assert PrettyHex(p.smesher) in HexIdsAt(init, e) <==> p.smesher in IdsAt(init, e) by {
          if PrettyHex(p.smesher) in HexIdsAt(init, e) {
            var j :| 0 <= j < |init| && init[j].epoch == e && PrettyHex(init[j].smesher) == PrettyHex(p.smesher);
            PrettyHexInjective(init[j].smesher, p.smesher);
          }
          if p.smesher in IdsAt(init, e) {
            var j :| 0 <= j < |init| && init[j].epoch == e && init[j].smesher == p.smesher;
            assert PrettyHex(init[j].smesher) in HexIdsAt(init, e);
          }
        }
      }
    }
  }

  /** Each epoch's set in the map has as many entries as the epoch has
      distinct smeshers. */
  lemma UniqueSizes(ps: seq<Proposal>)
    ensures forall e :: e in UniqueOf(ps) ==> |UniqueOf(ps)[e]| == |IdsAt(ps, e)|
  {
    UniqueOfMeaning(ps);
    forall e | e in UniqueOf(ps) ensures |UniqueOf(ps)[e]| == |IdsAt(ps, e)| {
      DistinctSmeshers(ps, e);
    }
  }

  lemma ConcatNext(created: seq<seq<Proposal>>, i: nat)
    requires i < |created|
    ensures Concat(created[..i + 1]) == Concat(created[..i]) + created[i]
  {
    assert created[..i + 1][..i] == created[..i];
  }

  lemma UniqueOfNext(ps: seq<Proposal>, p: Proposal)
    ensures UniqueOf(ps + [p])
      == UniqueOf(ps)[p.epoch := (if p.epoch in UniqueOf(ps) then UniqueOf(ps)[p.epoch] else {}) + {PrettyHex(p.smesher)}]
  {
    assert (ps + [p])[..|ps|] == ps;
  }

  lemma UniqueOfStep(before: seq<Proposal>, proposals: seq<Proposal>, j: nat)
    requires j < |proposals|
    ensures var m := UniqueOf(before + proposals[..j]);
      var p := proposals[j];
      UniqueOf(before + proposals[..j + 1]) == m[p.epoch := (if p.epoch in m then m[p.epoch] else {}) + {PrettyHex(p.smesher)}]
  {
    assert before + proposals[..j + 1] == (before + proposals[..j]) + [proposals[j]];
    UniqueOfNext(before + proposals[..j], proposals[j]);
  }

  /** The nested loops over the peers' lists and their proposals. */
  method Unique(created: seq<seq<Proposal>>) returns (unique: map<Uint64, set<string>>)
    ensures unique == UniqueOf(Concat(created))
    ensures forall e :: e in unique ==> |unique[e]| == |IdsAt(Concat(created), e)|
  {
    unique := map[];
    for i := 0 to |created|
      invariant unique == UniqueOf(Concat(created[..i]))
    {
      var proposals := created[i];
      ghost var before := Concat(created[..i]);
      assert before + proposals[..0] == before;
      for j := 0 to |proposals|
        invariant unique == UniqueOf(before + proposals[..j])
      {
        var p := proposals[j];
        ghost var entered := if p.epoch in unique then unique[p.epoch] else {};
        if p.epoch !in unique {
          unique := unique[p.epoch := {}];
        }
        assert unique[p.epoch] == entered;
        unique := unique[p.epoch := unique[p.epoch] + {PrettyHex(p.smesher)}];
        UniqueOfStep(before, proposals, j);
      }
      assert proposals[..|proposals|] == proposals;
      ConcatNext(created, i);
    }
    assert created[..|created|] == created;
    UniqueSizes(Concat(created));
  }

  /** len of the epoch's set; a missing epoch reads as an empty set. */
  function Size(unique: map<Uint64, set<string>>, e: Uint64): nat
  {
    if e in unique then |unique[e]| else 0
  }

  /** How many smeshers epoch e must have: all but the late ones up to
      epoch 5, all of them after. */
  function Want(e: Uint64, total: int, addedLater: int): int
  {
    if e <= EpochBeforeJoin then total - addedLater else total
  }

  /** The require.Len checks for epochs 3 to 7, in order; the first failure
      ends the test and reports its epoch. `addedLater`, the floating point
      `int(0.2 * size)`, is a parameter. */
  method CheckEpochs(unique: map<Uint64, set<string>>, total: int, addedLater: int)
    returns (failure: Option<Failure>, epoch: Uint64)
    ensures failure.None? <==> forall e: Uint64 :: 3 <= e <= LastEpoch ==> Size(unique, e) == Want(e, total, addedLater)
    ensures failure.Some? ==>
      && 3 <= epoch <= LastEpoch
      && Size(unique, epoch) != Want(epoch, total, addedLater)
      && failure == Some(WrongLength(Want(epoch, total, addedLater), Size(unique, epoch)))
      && forall e: Uint64 :: 3 <= e < epoch ==> Size(unique, e) == Want(e, total, addedLater)
  {
    epoch := 3;
    while epoch <= EpochBeforeJoin
      invariant 3 <= epoch <= EpochBeforeJoin + 1
      invariant forall e: Uint64 :: 3 <= e < epoch ==> Size(unique, e) == Want(e, total, addedLater)
    {
      if Size(unique, epoch) != total - addedLater {
        return Some(WrongLength(total - addedLater, Size(unique, epoch))), epoch;
      }
      epoch := epoch + 1;
    }
    while epoch <= LastEpoch
      invariant EpochBeforeJoin + 1 <= epoch <= LastEpoch + 1
      invariant forall e: Uint64 :: 3 <= e < epoch ==> Size(unique, e) == Want(e, total, addedLater)
    {
      if Size(unique, epoch) != total {
        return Some(WrongLength(total, Size(unique, epoch))), epoch;
      }
      epoch := epoch + 1;
    }
    failure := None;
  }

  // ---------------------------------------------------------------------
  // TestFailedNodes
  // ---------------------------------------------------------------------

  /** The names of the nodes to fail: the last `failed` peers, from the
      last one down. `failed`, the floating point `int(0.6 * size)`, is a
      parameter. */
  method FailedNames(clients: seq<NodeClient>, failed: nat) returns (names: seq<string>)
    requires failed <= |clients|
    ensures |names| == failed
    ensures forall k :: 0 <= k < failed ==> names[k] == clients[|clients| - 1 - k].name
    ensures forall j :: |clients| - failed <= j < |clients| ==> clients[j].name in names
  {
    names := [];
    for i := 1 to failed + 1
      invariant |names| == i - 1
      invariant forall k :: 0 <= k < i - 1 ==> names[k] == clients[|clients| - 1 - k].name
    {
      names := names + [clients[|clients| - i].name];
    }
    forall j | |clients| - failed <= j < |clients| ensures clients[j].name in names {
      assert names[|clients| - 1 - j] == clients[j].name;
    }
  }

  /** A surviving peer's collector is the confirmed-layer recorder stopping
      at layer 23: it ends without error exactly at a confirmed layer 23, and
      meanwhile holds the printed hash of every earlier confirmed layer. */
  lemma SurvivorHashesOutcome(stream: Stream<Layer>)
    ensures var o := Collect(Partition.RecordConfirmed(LastFailedLayer), map[], stream);
      && (o.err.None? <==>
            && stream.Opened? && o.consumed >= 1
            && stream.items[o.consumed - 1].event.status == Confirmed
            && stream.items[o.consumed - 1].event.number == 23)
      && (stream.Opened? ==>
            var k := if o.err.None? then o.consumed - 1 else o.consumed;
            && Delivered(stream.items, k)
            && o.state == Recording.RecordAll(map[], EventsOf(stream.items[..k]), Partition.IsConfirmed, Partition.Number, Partition.PrintedHash))
  {
    Partition.RecordConfirmedOutcome(LastFailedLayer, stream);
  }

  /** The labels the comparison prints as written: for each surviving peer
      after the first whose map differs from peer 0's, its position in the
      slice `hashes[1:live]`, that is one less than its peer index. */
  function SurvivorLabels(hashes: seq<map<Uint32, string>>, live: nat): seq<nat>
    requires 1 <= live <= |hashes|
    decreases live
  {
    if live == 1 then []
    else SurvivorLabels(hashes, live - 1) + (if hashes[live - 1] != hashes[0] then [live - 2] else [])
  }

  /** Label c is printed exactly when peer c + 1 differs from peer 0, and
      the labels come in increasing order. */
  lemma {:induction false} SurvivorLabelsMeaning(hashes: seq<map<Uint32, string>>, live: nat)
    requires 1 <= live <= |hashes|
    decreases live
    ensures forall c :: c in SurvivorLabels(hashes, live) <==> 0 <= c < live - 1 && hashes[c + 1] != hashes[0]
    ensures forall a, b :: 0 <= a < b < |SurvivorLabels(hashes, live)| ==>
      SurvivorLabels(hashes, live)[a] < SurvivorLabels(hashes, live)[b]
  {
    if live > 1 {
      SurvivorLabelsMeaning(hashes, live - 1);
      var ls := SurvivorLabels(hashes, live - 1);
      var full := SurvivorLabels(hashes, live);
      assert full == ls + (if hashes[live - 1] != hashes[0] then [live - 2] else []);
      forall a, b | 0 <= a < b < |full| ensures full[a] < full[b] {
        assert full[a] == ls[a] && ls[a] in ls;
        assert ls[a] < live - 2;
        if b < |ls| {
          assert full[b] == ls[b] && ls[a] < ls[b];
        } else {
          assert full[b] == live - 2;
        }
      }
    }
  }

  /** As written, a cluster where only peer 1 differs is reported with
      label 0, the index of the reference peer itself. */
  lemma SurvivorLabelNamesReference()
    ensures var hashes: seq<map<Uint32, string>> := [map[], map[1 := "0x"]];
      && hashes[1] != hashes[0]
      && SurvivorLabels(hashes, 2) == [0]
  {
    var hashes: seq<map<Uint32, string>> := [map[], map[1 := "0x"]];
    assert 1 in hashes[1];
  }

  /** The comparison as written: assert.Equal of every other surviving
      peer's map with peer 0's, printing the slice position. */
  method CompareSurvivors(hashes: seq<map<Uint32, string>>, live: nat) returns (labels: seq<nat>)
    requires 1 <= live <= |hashes|
    ensures labels == SurvivorLabels(hashes, live)
    ensures forall c :: c in labels <==> 0 <= c < live - 1 && hashes[c + 1] != hashes[0]
  {
    var reference := hashes[0];
    var compared := hashes[1..live];
    labels := [];
    for i := 0 to |compared|
      invariant labels == SurvivorLabels(hashes, i + 1)
    {
      assert compared[i] == hashes[i + 1];
      if compared[i] != reference {
        labels := labels + [i];
      }
    }
    SurvivorLabelsMeaning(hashes, live);
  }

  /** The comparison corrected to print the peer index, as the other
      scenarios do: peer i is reported exactly when its map differs from
      peer 0's. */
  method CompareSurvivorsByPeer(hashes: seq<map<Uint32, string>>, live: nat) returns (failed: seq<nat>)
    requires 1 <= live <= |hashes|
    ensures forall i :: i in failed <==> 1 <= i < live && hashes[i] != hashes[0]
    ensures forall a, b :: 0 <= a < b < |failed| ==> failed[a] < failed[b]
  {
    failed := Partition.CompareWithReference(hashes[..live]);
  }
}
