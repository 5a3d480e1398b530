/** tests/healing_test.go: peer 0's chaos controller, which partitions the
    cluster at the first layer from 12 on and restores it at the first layer
    from 17 on, and the per-peer collector recording each layer's hash until
    layer 60. Both run in collectLayers' loop (Streams.Receive). */
module Healing {
  import opened Prelude
  import opened Mesh
  import opened Streams
  import opened Recording

  const PartitionAt: Uint32 := 12
  const RestoreAt: Uint32 := 17
  const Wait: Uint32 := 60

  // ---------------------------------------------------------------------
  // The chaos controller
  // ---------------------------------------------------------------------

  /** What the controller closure captures: whether `teardown` is set, and
      how many times Partition2 and teardown have been called. */
  datatype Chaos = Chaos(teardown: bool, partitions: nat, teardowns: nat)

  const Calm: Chaos := Chaos(false, 0, 0)
  const Partitioned: Chaos := Chaos(true, 1, 0)

  /** One call of the controller. Partition2 always hands back a teardown,
      also with an error; `partitionErr` and `teardownErr` are what the two
      chaos calls return. */
  function ControlStep(partitionErr: Option<string>, teardownErr: Option<string>, s: Chaos, l: Layer): Verdict<Chaos>
  {
    var partitioning := l.number >= PartitionAt && !s.teardown;
    var s1 := if partitioning then s.(teardown := true, partitions := s.partitions + 1) else s;
    if partitioning && partitionErr.Some? then Verdict(s1, false, partitionErr)
    else if l.number >= RestoreAt then Verdict(s1.(teardowns := s1.teardowns + 1), false, teardownErr)
    else Verdict(s1, true, None)
  }

  function Controller(partitionErr: Option<string>, teardownErr: Option<string>): (Chaos, Layer) -> Verdict<Chaos>
  {
    (s, l) => ControlStep(partitionErr, teardownErr, s, l)
  }

  /** While the controller goes on, it is calm until the first layer from 12
      on and partitioned from then on; it goes on exactly while every layer
      is below 17 and, should Partition2 fail, below 12 as well. */
  lemma {:induction false} ControllerContinues(partitionErr: Option<string>, teardownErr: Option<string>, s: Chaos, es: seq<Layer>)
    requires s == Calm || s == Partitioned
    decreases |es|
    ensures Continues(Controller(partitionErr, teardownErr), s, es)
      <==> forall j :: 0 <= j < |es| ==>
             es[j].number < RestoreAt && (partitionErr.Some? && s == Calm ==> es[j].number < PartitionAt)
    ensures Continues(Controller(partitionErr, teardownErr), s, es) ==>
      Feed(Controller(partitionErr, teardownErr), s, es)
        == if s == Partitioned || exists j :: 0 <= j < |es| && es[j].number >= PartitionAt then Partitioned else Calm
  {
    var step := Controller(partitionErr, teardownErr);
    if |es| > 0 {
      var v := step(s, es[0]);
      var rest := es[1..];
      if v.cont {
        ControllerContinues(partitionErr, teardownErr, v.state, rest);
        assert forall j :: 0 <= j < |rest| ==> rest[j] == es[j + 1];
        if v.state == Partitioned && s == Calm {
          assert es[0].number >= PartitionAt;
        }
        if exists j :: 0 <= j < |es| && es[j].number >= PartitionAt {
          var j :| 0 <= j < |es| && es[j].number >= PartitionAt;
          if j > 0 {
            assert rest[j - 1].number >= PartitionAt;
          }
        }
      }
    }
  }

  /** Every run of peer 0's controller: Partition2 is called at most once,
      and only once a layer from 12 on has arrived; once one has arrived,
      Partition2 has been called; every layer before the last one handed
      over is below 17; teardown is called at most once, only after a
      successful Partition2, and ends the run with its error. */
  lemma ControllerOutcome(partitionErr: Option<string>, teardownErr: Option<string>, stream: Stream<Layer>)
    ensures var o := Collect(Controller(partitionErr, teardownErr), Calm, stream);
      && o.state.partitions <= 1
      && o.state.teardowns <= o.state.partitions
      && o.state.teardown == (o.state.partitions == 1)
      && (o.state.teardowns == 1 ==> partitionErr.None? && o.err == teardownErr)
      && (stream.Opened? ==>
            && (o.state.partitions == 1 ==>
                  exists j :: 0 <= j < o.consumed && stream.items[j].event.number >= PartitionAt)
            && (forall j :: 0 <= j < o.consumed && stream.items[j].event.number >= PartitionAt ==>
                  o.state.partitions == 1)
            && (forall j :: 0 <= j < o.consumed - 1 ==> stream.items[j].event.number < RestoreAt))
  {
    if stream.Opened? {
      ControllerFold(partitionErr, teardownErr, Calm, stream.items);
    }
  }

  /** ControllerOutcome from either state the controller can be in while it
      goes on. */
  lemma {:induction false} ControllerFold(partitionErr: Option<string>, teardownErr: Option<string>, s: Chaos, items: seq<Recv<Layer>>)
    requires s == Calm || (s == Partitioned && partitionErr.None?)
    decreases |items|
    ensures var o := Fold(Controller(partitionErr, teardownErr), s, items);
      && o.state.partitions <= 1
      && o.state.teardowns <= o.state.partitions
      && o.state.teardown == (o.state.partitions == 1)
      && (s == Partitioned ==> o.state.partitions == 1)
      && (o.state.teardowns == 1 ==> partitionErr.None? && o.err == teardownErr)
      && (o.state.partitions == 1 && s == Calm ==>
            exists j :: 0 <= j < o.consumed && items[j].event.number >= PartitionAt)
      && (forall j :: 0 <= j < o.consumed && items[j].event.number >= PartitionAt ==> o.state.partitions == 1)
      && (forall j :: 0 <= j < o.consumed - 1 ==> items[j].event.number < RestoreAt)
  {
    var step := Controller(partitionErr, teardownErr);
    if |items| > 0 && items[0].Event? {
      var v := step(s, items[0].event);
      if v.cont {
        var rest := items[1..];
        ControllerFold(partitionErr, teardownErr, v.state, rest);
        var r := Fold(step, v.state, rest);
        assert forall j :: 0 <= j < |rest| ==> rest[j] == items[j + 1];
        if r.state.partitions == 1 && s == Calm && v.state == Calm {
          var j :| 0 <= j < r.consumed && rest[j].event.number >= PartitionAt;
          assert items[j + 1].event.number >= PartitionAt;
        }
      }
    }
  }

  // ---------------------------------------------------------------------
  // The hash collectors
  // ---------------------------------------------------------------------

  function Number(l: Layer): Uint32 { l.number }
  function HashOf(l: Layer): seq<Byte> { l.hash }
  function Always(l: Layer): bool { true }

  /** One call of a peer's collector: stop at layer 60 without recording
      it, otherwise record the layer's hash under its number. */
  function RecordHash(hashes: map<Uint32, seq<Byte>>, l: Layer): Verdict<map<Uint32, seq<Byte>>>
  {
    if l.number == Wait then Verdict(hashes, false, None)
    else Verdict(hashes[l.number := l.hash], true, None)
  }

  /** The collector goes on exactly while no layer is 60, and meanwhile
      holds every layer's hash, a later report of a layer overwriting an
      earlier one. */
  lemma {:induction false} RecordHashContinues(hashes: map<Uint32, seq<Byte>>, es: seq<Layer>)
    decreases |es|
    ensures Continues(RecordHash, hashes, es) <==> forall j :: 0 <= j < |es| ==> es[j].number != Wait
    ensures Continues(RecordHash, hashes, es) ==>
      Feed(RecordHash, hashes, es) == RecordAll(hashes, es, Always, Number, HashOf)
  {
    if |es| > 0 {
      var rest := es[1..];
      RecordHashContinues(hashes[es[0].number := es[0].hash], rest);
      assert forall j :: 0 <= j < |rest| ==> rest[j] == es[j + 1];
    }
  }

  /** A peer's goroutine ends without error exactly when layer 60 arrived,
      and its map holds the hashes of the layers handed over before it
      (not layer 60 itself), the last report of a layer winning. */
  lemma RecordHashOutcome(stream: Stream<Layer>)
    ensures var o := Collect(RecordHash, map[], stream);
      && (o.err.None? <==>
            stream.Opened? && o.consumed >= 1 && stream.items[o.consumed - 1].event.number == Wait)
      && (stream.Opened? ==>
            var k := if o.err.None? then o.consumed - 1 else o.consumed;
            && Delivered(stream.items, k)
            && o.state == RecordAll(map[], EventsOf(stream.items[..k]), Always, Number, HashOf))
  {
    if stream.Opened? {
      var items := stream.items;
      var o := Fold(RecordHash, map[], items);
      FoldOutcome(RecordHash, map[], items);
      if Exhausted(RecordHash, map[], items, o) {
        assert items[..o.consumed] == items;
        RecordHashContinues(map[], EventsOf(items));
      } else if FailedAt(RecordHash, map[], items, o) {
        RecordHashContinues(map[], EventsOf(items[..o.consumed]));
      } else {
        RecordHashContinues(map[], EventsOf(items[..o.consumed - 1]));
      }
    }
  }
}
