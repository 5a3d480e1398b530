/** tests/partition_test.go: peer 0's chaos controller, which partitions the
    cluster when layer 13 arrives and restores it when layer 20 arrives, the
    per-peer collectors recording the printed hash of every confirmed layer
    until confirmed layer 50, and the comparison of every peer's hashes with
    peer 0's. The controller as written calls a nil teardown when layer 20
    comes without layer 13 before it; GuardedControlStep is the corrected
    controller. */
module Partition {
  import opened Prelude
  import opened Mesh
  import opened Streams
  import opened Recording
  import opened Smeshing

  const PartitionAt: Uint32 := 13
  const RestoreAt: Uint32 := 20
  const Wait: Uint32 := 50

  /** The message of the run-time panic Go raises when a nil function value
      is called. */
  const NilDereference: string := "runtime error: invalid memory address or nil pointer dereference"

  // ---------------------------------------------------------------------
  // The chaos controller
  // ---------------------------------------------------------------------

  /** What the controller closure captures: whether `teardown` is set, how
      many times Partition2 and teardown have been called, and whether the
      goroutine has panicked calling a nil teardown. */
  datatype Chaos = Chaos(teardown: bool, partitions: nat, teardowns: nat, panicked: bool)

  const Calm: Chaos := Chaos(false, 0, 0, false)
  const Partitioned: Chaos := Chaos(true, 1, 0, false)

  /** Partition2 is called when layer 13 arrives and no teardown is set yet;
      it always hands back a teardown, also with an error. */
  function PartitionStep(s: Chaos, l: Layer): Chaos
  {
    if l.number == PartitionAt && !s.teardown then s.(teardown := true, partitions := s.partitions + 1) else s
  }

  /** One call of the controller as written: at layer 20 the teardown is
      called whether or not it was ever set. A nil call panics, which the
      model records and reports as the goroutine's end. */
  function ControlStep(partitionErr: Option<string>, teardownErr: Option<string>, s: Chaos, l: Layer): Verdict<Chaos>
  {
    var s1 := PartitionStep(s, l);
    if s1 != s && partitionErr.Some? then Verdict(s1, false, partitionErr)
    else if l.number == RestoreAt then
      if !s1.teardown then Verdict(s1.(panicked := true), false, Some(NilDereference))
      else Verdict(s1.(teardowns := s1.teardowns + 1), false, teardownErr)
    else Verdict(s1, true, None)
  }

  function Controller(partitionErr: Option<string>, teardownErr: Option<string>): (Chaos, Layer) -> Verdict<Chaos>
  {
    (s, l) => ControlStep(partitionErr, teardownErr, s, l)
  }

  /** A peer 0 whose stream never shows layer 13 but does show layer 20 (it
      joined late, or the layer was skipped) makes the controller call the
      nil teardown. */
  lemma NilTeardownPanics(partitionErr: Option<string>, teardownErr: Option<string>)
    ensures var stream := Opened([Event(Layer(RestoreAt, Confirmed, [], []))]);
      var o := Collect(Controller(partitionErr, teardownErr), Calm, stream);
      o.state.panicked && o.state.partitions == 0 && o.err == Some(NilDereference)
  {
    var items := [Event(Layer(RestoreAt, Confirmed, [], []))];
    assert items[1..] == [];
  }

  /** The corrected controller: at layer 20 the partition is restored only
      if there is one; without one there is nothing to restore and the
      controller ends without error. */
  function GuardedControlStep(partitionErr: Option<string>, teardownErr: Option<string>, s: Chaos, l: Layer): Verdict<Chaos>
  {
    var s1 := PartitionStep(s, l);
    if s1 != s && partitionErr.Some? then Verdict(s1, false, partitionErr)
    else if l.number == RestoreAt then
      if !s1.teardown then Verdict(s1, false, None)
      else Verdict(s1.(teardowns := s1.teardowns + 1), false, teardownErr)
    else Verdict(s1, true, None)
  }

  function GuardedController(partitionErr: Option<string>, teardownErr: Option<string>): (Chaos, Layer) -> Verdict<Chaos>
  {
    (s, l) => GuardedControlStep(partitionErr, teardownErr, s, l)
  }

  /** Every run of the corrected controller: it never panics; Partition2 is
      called at most once, and only once layer 13 has arrived; every layer
      before the last one handed over is other than 20; teardown is called
      at most once, only after a successful Partition2, and ends the run
      with its error; a run that stops at layer 20 with no partition made
      ends without error. */
  lemma GuardedControllerOutcome(partitionErr: Option<string>, teardownErr: Option<string>, stream: Stream<Layer>)
    ensures var o := Collect(GuardedController(partitionErr, teardownErr), Calm, stream);
      && !o.state.panicked
      && o.state.partitions <= 1
      && o.state.teardowns <= o.state.partitions
      && o.state.teardown == (o.state.partitions == 1)
      && (o.state.teardowns == 1 ==> partitionErr.None? && o.err == teardownErr)
      && (stream.Opened? ==>
            && (o.state.partitions == 1 ==>
                  exists j :: 0 <= j < o.consumed && stream.items[j].event.number == PartitionAt)
            && (forall j :: 0 <= j < o.consumed - 1 ==> stream.items[j].event.number != RestoreAt)
            && (o.state.partitions == 0 && o.consumed >= 1 && stream.items[o.consumed - 1].event.number == RestoreAt ==>
                  o.err.None?))
  {
    if stream.Opened? {
      GuardedControllerFold(partitionErr, teardownErr, Calm, stream.items);
    }
  }

  /** GuardedControllerOutcome from either state the controller can be in
      while it goes on. */
  lemma {:induction false} GuardedControllerFold(partitionErr: Option<string>, teardownErr: Option<string>, s: Chaos,
                                                 items: seq<Recv<Layer>>)
    requires s == Calm || (s == Partitioned && partitionErr.None?)
    decreases |items|
    ensures var o := Fold(GuardedController(partitionErr, teardownErr), s, items);
      && !o.state.panicked
      && o.state.partitions <= 1
      && o.state.teardowns <= o.state.partitions
      && o.state.teardown == (o.state.partitions == 1)
      && (s == Partitioned ==> o.state.partitions == 1)
      && (o.state.teardowns == 1 ==> partitionErr.None? && o.err == teardownErr)
      && (o.state.partitions == 1 && s == Calm ==>
            exists j :: 0 <= j < o.consumed && items[j].event.number == PartitionAt)
      && (forall j :: 0 <= j < o.consumed - 1 ==> items[j].event.number != RestoreAt)
      && (o.state.partitions == 0 && o.consumed >= 1 && items[o.consumed - 1].event.number == RestoreAt ==> o.err.None?)
  {
    var step := GuardedController(partitionErr, teardownErr);
    if |items| > 0 && items[0].Event? {
      var v := step(s, items[0].event);
      if v.cont {
        var rest := items[1..];
        GuardedControllerFold(partitionErr, teardownErr, v.state, rest);
        var r := Fold(step, v.state, rest);
        assert forall j :: 0 <= j < |rest| ==> rest[j] == items[j + 1];
        if r.state.partitions == 1 && s == Calm && v.state == Calm {
          var j :| 0 <= j < r.consumed && rest[j].event.number == PartitionAt;
          assert items[j + 1].event.number == PartitionAt;
        }
      }
    }
  }

  // ---------------------------------------------------------------------
  // The hash collectors
  // ---------------------------------------------------------------------

  function IsConfirmed(l: Layer): bool { l.status == Confirmed }
  function Number(l: Layer): Uint32 { l.number }
  function PrintedHash(l: Layer): string { PrettyHex(l.hash) }

  /** One call of a peer's collector: layers that are not confirmed are
      passed over; confirmed layer `last` (50 here) ends the goroutine
      without being recorded; any other confirmed layer has its printed hash
      recorded. */
  function RecordConfirmedStep(last: Uint32, hashes: map<Uint32, string>, l: Layer): Verdict<map<Uint32, string>>
  {
    if l.status != Confirmed then Verdict(hashes, true, None)
    else if l.number == last then Verdict(hashes, false, None)
    else Verdict(hashes[l.number := PrettyHex(l.hash)], true, None)
  }

  function RecordConfirmed(last: Uint32): (map<Uint32, string>, Layer) -> Verdict<map<Uint32, string>>
  {
    (hashes, l) => RecordConfirmedStep(last, hashes, l)
  }

  /** The collector goes on exactly while no confirmed layer `last` has come,
      and meanwhile holds the printed hash of every confirmed layer, a later
      report of a layer overwriting an earlier one. */
  lemma {:induction false} RecordConfirmedContinues(last: Uint32, hashes: map<Uint32, string>, es: seq<Layer>)
    decreases |es|
    ensures Continues(RecordConfirmed(last), hashes, es)
      <==> forall j :: 0 <= j < |es| ==> !(es[j].status == Confirmed && es[j].number == last)
    ensures Continues(RecordConfirmed(last), hashes, es) ==>
      Feed(RecordConfirmed(last), hashes, es) == RecordAll(hashes, es, IsConfirmed, Number, PrintedHash)
  {
    if |es| > 0 {
      var rest := es[1..];
      RecordConfirmedContinues(last, RecordConfirmedStep(last, hashes, es[0]).state, rest);
      assert forall j :: 0 <= j < |rest| ==> rest[j] == es[j + 1];
    }
  }

  /** A peer's goroutine ends without error exactly when confirmed layer `last`
      arrived, and its map holds the printed hashes of the confirmed layers
      handed over before the end, the last report of a layer winning. */
  lemma RecordConfirmedOutcome(last: Uint32, stream: Stream<Layer>)
    ensures var o := Collect(RecordConfirmed(last), map[], stream);
      && (o.err.None? <==>
            && stream.Opened? && o.consumed >= 1
            && stream.items[o.consumed - 1].event.status == Confirmed
            && stream.items[o.consumed - 1].event.number == last)
      && (stream.Opened? ==>
            var k := if o.err.None? then o.consumed - 1 else o.consumed;
            && Delivered(stream.items, k)
            && o.state == RecordAll(map[], EventsOf(stream.items[..k]), IsConfirmed, Number, PrintedHash))
  {
    if stream.Opened? {
      var items := stream.items;
      var o := Fold(RecordConfirmed(last), map[], items);
      FoldOutcome(RecordConfirmed(last), map[], items);
      if Exhausted(RecordConfirmed(last), map[], items, o) {
        assert items[..o.consumed] == items;
        RecordConfirmedContinues(last, map[], EventsOf(items));
      } else if FailedAt(RecordConfirmed(last), map[], items, o) {
        RecordConfirmedContinues(last, map[], EventsOf(items[..o.consumed]));
      } else {
        RecordConfirmedContinues(last, map[], EventsOf(items[..o.consumed - 1]));
      }
    }
  }

  // ---------------------------------------------------------------------
  // The comparison
  // ---------------------------------------------------------------------

  /** assert.Equal of every peer's map with peer 0's: a failure does not
      stop the loop, and each is reported with the peer it concerns. The
      result lists those peers in order. */
  method CompareWithReference(hashes: seq<map<Uint32, string>>) returns (failed: seq<nat>)
    requires |hashes| >= 1
    ensures forall i :: i in failed <==> 1 <= i < |hashes| && hashes[i] != hashes[0]
    ensures forall a, b :: 0 <= a < b < |failed| ==> failed[a] < failed[b]
  {
    var reference := hashes[0];
    var compared := hashes[1..];
    failed := [];
    for i := 0 to |compared|
      invariant forall c :: c in failed <==> 1 <= c < i + 1 && hashes[c] != reference
      invariant forall a, b :: 0 <= a < b < |failed| ==> failed[a] < failed[b]
      invariant forall a :: 0 <= a < |failed| ==> failed[a] < i + 1
    {
      assert compared[i] == hashes[i + 1];
      if compared[i] != reference {
        failed := failed + [i + 1];
      }
    }
  }
}
