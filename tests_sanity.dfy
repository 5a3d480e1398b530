/** tests/sanity_test.go: its defaultTargetOutbound; collectRewards and the
    reward comparison of TestSmeshing; the per-peer loop of TestHealing (the
    chaos calls on peer 0, the hash recording on every peer) and its
    comparison; and TestTransactions: the senders, which submit a batch of
    twenty transfers for every layer reported without status until layer
    14, the receivers, which gather the transactions of the single block of
    every confirmed layer until layer 16, and the comparison. */
module Sanity {
  import opened Prelude
  import opened TxLayout
  import opened Mesh
  import opened Streams
  import opened Recording
  import opened Testify
  import opened TestsCommon
  import Healing

  /** defaultTargetOutbound: 2 below ten nodes; from ten on, the floating
      point `int(0.2 * float64(size))`, computed here exactly as the integer
      part of size/5, which the float64 product truncates to for every size
      below 2^52. */
  function DefaultTargetOutbound(size: int): (r: int)
    ensures size < 10 ==> r == 2
    ensures size >= 10 ==> 2 <= r && 5 * r <= size < 5 * r + 5
  {
    if size < 10 then 2 else size / 5
  }

  // ---------------------------------------------------------------------
  // collectRewards
  // ---------------------------------------------------------------------

  /** rewardsResult: the layers of the rewards taken, the smesher's address
      and the sum of their values in uint64 arithmetic. */
  datatype RewardsResult = RewardsResult(layers: seq<Uint32>, address: seq<Byte>, sum: Uint64)

  /** One pass of a peer's reward loop: a reward past `upto` ends the loop
      without being taken; any other adds its layer and its value. */
  function RewardStep(upto: Uint32, rst: RewardsResult, r: Reward): Verdict<RewardsResult>
  {
    if r.layer > upto then Verdict(rst, false, None)
    else Verdict(rst.(layers := rst.layers + [r.layer], sum := (rst.sum + r.value) % Uint64Modulus), true, None)
  }

  function AddReward(upto: Uint32): (RewardsResult, Reward) -> Verdict<RewardsResult>
  {
    (rst, r) => RewardStep(upto, rst, r)
  }

  /** The sum of the reward values, without wrap-around. */
  function Total(rs: seq<Reward>): nat
  {
    if |rs| == 0 then 0 else rs[0].value + Total(rs[1..])
  }

  lemma ModAdd(a: int, b: int)
    ensures (a % Uint64Modulus + b) % Uint64Modulus == (a + b) % Uint64Modulus
  {
    var q := a / Uint64Modulus;
    assert a == q * Uint64Modulus + a % Uint64Modulus;
    assert a + b == (a % Uint64Modulus + b) + q * Uint64Modulus;
  }

  /** The loop goes on exactly while every reward is at most `upto`; it has
      then taken every reward's layer in order and added up their values
      modulo 2^64. */
  lemma {:induction false} RewardsContinue(upto: Uint32, rst: RewardsResult, rs: seq<Reward>)
    decreases |rs|
    ensures Continues(AddReward(upto), rst, rs) <==> forall j :: 0 <= j < |rs| ==> rs[j].layer <= upto
    ensures Continues(AddReward(upto), rst, rs) ==>
      var f := Feed(AddReward(upto), rst, rs);
      && f.address == rst.address
      && |f.layers| == |rst.layers| + |rs|
      && f.layers[..|rst.layers|] == rst.layers
      && (forall j :: 0 <= j < |rs| ==> f.layers[|rst.layers| + j] == rs[j].layer)
      && f.sum == (rst.sum + Total(rs)) % Uint64Modulus
  {
    if |rs| > 0 {
      var rest := rs[1..];
      var next := RewardStep(upto, rst, rs[0]).state;
      RewardsContinue(upto, next, rest);
      assert forall j :: 0 <= j < |rest| ==> rest[j] == rs[j + 1];
      if Continues(AddReward(upto), rst, rs) {
        var f := Feed(AddReward(upto), rst, rs);
        assert f.layers[..|next.layers|] == next.layers;
        assert f.layers[..|rst.layers|] == next.layers[..|rst.layers|];
        ModAdd(rst.sum + rs[0].value, Total(rest));
      }
    }
  }

  /** One peer's goroutine: the smesher id, then the reward stream; the
      result is sent on the channel only when the goroutine ends with nil. */
  function PeerRewards(upto: Uint32, id: Result<seq<Byte>>, stream: Stream<Reward>): Result<RewardsResult>
  {
    match id
    case Err(e) => Err(e)
    case Ok(address) =>
      var o := Collect(AddReward(upto), RewardsResult([], address, 0), stream);
      if o.err.None? then Ok(o.state) else Err(o.err.value)
  }

  /** A peer yields a result exactly when its id was read and its stream
      reached a reward past `upto`; the result carries the id, and the
      layers and the sum modulo 2^64 of the rewards before that one, every
      one at most `upto`. */
  lemma PeerRewardsOutcome(upto: Uint32, id: Result<seq<Byte>>, stream: Stream<Reward>)
    ensures var r := PeerRewards(upto, id, stream);
      && (r.Ok? <==>
            && id.Ok? && stream.Opened?
            && var o := Collect(AddReward(upto), RewardsResult([], id.value, 0), stream);
            && o.consumed >= 1 && stream.items[o.consumed - 1].event.layer > upto)
      && (r.Ok? ==>
            var k := Collect(AddReward(upto), RewardsResult([], id.value, 0), stream).consumed - 1;
            var rs := EventsOf(stream.items[..k]);
            && r.value.address == id.value
            && (forall j :: 0 <= j < k ==> stream.items[j].event.layer <= upto)
            && |r.value.layers| == k
            && (forall j :: 0 <= j < k ==> r.value.layers[j] == stream.items[j].event.layer)
            && r.value.sum == Total(rs) % Uint64Modulus)
  {
    if id.Ok? && stream.Opened? {
      var s0 := RewardsResult([], id.value, 0);
      var items := stream.items;
      var o := Fold(AddReward(upto), s0, items);
      FoldOutcome(AddReward(upto), s0, items);
      if Exhausted(AddReward(upto), s0, items, o) {
        RewardsExhausted(upto, s0, items, o);
      } else if FailedAt(AddReward(upto), s0, items, o) {
        RewardsFailed(upto, s0, items, o);
      } else {
        RewardsStopped(upto, s0, items, o);
      }
    }
  }

  /** A stream that runs out, or whose Recv fails, gives no result. */
  lemma RewardsExhausted(upto: Uint32, s0: RewardsResult, items: seq<Recv<Reward>>, o: Outcome<RewardsResult>)
    requires Exhausted(AddReward(upto), s0, items, o)
    ensures o.err.Some?
    ensures o.consumed >= 1 ==> items[o.consumed - 1].event.layer <= upto
  {
    if o.consumed >= 1 {
      RewardsContinue(upto, s0, EventsOf(items));
      assert EventsOf(items)[o.consumed - 1] == items[o.consumed - 1].event;
    }
  }

  lemma RewardsFailed(upto: Uint32, s0: RewardsResult, items: seq<Recv<Reward>>, o: Outcome<RewardsResult>)
    requires FailedAt(AddReward(upto), s0, items, o)
    ensures o.err.Some?
    ensures o.consumed >= 1 ==> items[o.consumed - 1].event.layer <= upto
  {
    var k := o.consumed;
    if k >= 1 {
      RewardsContinue(upto, s0, EventsOf(items[..k]));
      assert EventsOf(items[..k])[k - 1] == items[k - 1].event;
    }
  }

  /** The reward past `upto` ends the loop with nil and the rewards before it. */
  lemma RewardsStopped(upto: Uint32, s0: RewardsResult, items: seq<Recv<Reward>>, o: Outcome<RewardsResult>)
    requires StoppedAt(AddReward(upto), s0, items, o)
    ensures o.err.None? && items[o.consumed - 1].event.layer > upto
    ensures var k := o.consumed - 1;
      && o.state.address == s0.address
      && (forall j :: 0 <= j < k ==> items[j].event.layer <= upto)
      && |o.state.layers| == |s0.layers| + k
      && (forall j :: 0 <= j < k ==> o.state.layers[|s0.layers| + j] == items[j].event.layer)
      && o.state.sum == (s0.sum + Total(EventsOf(items[..k]))) % Uint64Modulus
  {
    var k := o.consumed - 1;
    var rs := EventsOf(items[..k]);
    RewardsContinue(upto, s0, rs);
    assert forall j :: 0 <= j < k ==> rs[j] == items[j].event;
  }

  /** collectRewards: every peer's goroutine, here one after the other. The
      call ends without error exactly when every peer yields a result, and
      then returns each peer's result; otherwise it returns the error of a
      failing peer. */
  method CollectRewards(upto: Uint32, peers: seq<(Result<seq<Byte>>, Stream<Reward>)>)
    returns (results: seq<RewardsResult>, err: Option<string>)
    ensures err.None? <==> forall i :: 0 <= i < |peers| ==> PeerRewards(upto, peers[i].0, peers[i].1).Ok?
    ensures err.None? ==>
      && |results| == |peers|
      && forall i :: 0 <= i < |peers| ==> results[i] == PeerRewards(upto, peers[i].0, peers[i].1).value
    ensures err.Some? ==>
      exists i :: 0 <= i < |peers| && PeerRewards(upto, peers[i].0, peers[i].1) == Err(err.value)
  {
    results := [];
    for i := 0 to |peers|
      invariant |results| == i
      invariant forall j :: 0 <= j < i ==> PeerRewards(upto, peers[j].0, peers[j].1) == Ok(results[j])
    {
      var (id, stream) := peers[i];
      if id.Err? {
        return results, Some(id.error);
      }
      var o := Receive(AddReward(upto), RewardsResult([], id.value, 0), stream);
      if o.err.Some? {
        return results, Some(o.err.value);
      }
      results := results + [o.state];
    }
    err := None;
  }

  /** assert.InDelta: the sums differ by at most `delta`. */
  predicate WithinDelta(reference: Uint64, compared: Uint64, delta: nat)
  {
    (if reference >= compared then reference - compared else compared - reference) <= delta
  }

  /** TestSmeshing's comparison: the first result is the reference; every
      later sum further from it than the tolerance is a failure, which is
      recorded and does not stop the loop. The tolerance, a tenth of the
      reference sum in floating point, is passed in as `tolerance`. The
      result lists the failing positions in order. */
  method CompareRewardSums(results: seq<RewardsResult>, tolerance: Uint64 -> nat) returns (failed: seq<nat>)
    ensures forall i :: i in failed <==>
      1 <= i < |results| && !WithinDelta(results[0].sum, results[i].sum, tolerance(results[0].sum))
    ensures forall a, b :: 0 <= a < b < |failed| ==> failed[a] < failed[b]
  {
    failed := [];
    if |results| == 0 {
      return;
    }
    var delta := tolerance(results[0].sum);
    for i := 1 to |results|
      invariant forall c :: c in failed <==> 1 <= c < i && !WithinDelta(results[0].sum, results[c].sum, delta)
      invariant forall a, b :: 0 <= a < b < |failed| ==> failed[a] < failed[b]
      invariant forall a :: 0 <= a < |failed| ==> failed[a] < i
    {
      if !WithinDelta(results[0].sum, results[i].sum, delta) {
        failed := failed + [i];
      }
    }
  }

  /** The comparison as written: taking the address of the range
      variable as the reference, which Go before 1.22 reuses for every element
      received, so from the second element on the reference reads as the
      element under test. `slot` is that range variable; every comparison
      is of a sum with itself, and nothing is ever reported. */
  method CompareRewardSumsAliased(results: seq<RewardsResult>, tolerance: Uint64 -> nat) returns (failed: seq<nat>)
    ensures failed == []
  {
    failed := [];
    var slot: RewardsResult;
    var pinned := false;
    for i := 0 to |results|
      invariant failed == []
    {
      slot := results[i];
      if !pinned {
        pinned := true;
      } else {
        var differs := !WithinDelta(slot.sum, slot.sum, tolerance(slot.sum));
        failed := failed + (if differs then [i] else []);
      }
    }
  }

  /** Two peers with sums 0 and 100 and a tolerance of a tenth of the
      reference: CompareRewardSums reports the second peer, the aliased
      comparison reports nothing. */
  method AliasedComparisonMissesDifference() returns (intended: seq<nat>, asWritten: seq<nat>)
    ensures 1 in intended && forall i :: i in intended ==> i == 1
    ensures asWritten == []
  {
    var results := [RewardsResult([], [], 0), RewardsResult([], [1], 100)];
    var tenth := (sum: Uint64) => sum as nat / 10;
    assert !WithinDelta(results[0].sum, results[1].sum, tenth(results[0].sum));
    intended := CompareRewardSums(results, tenth);
    asWritten := CompareRewardSumsAliased(results, tenth);
  }

  // ---------------------------------------------------------------------
  // TestHealing
  // ---------------------------------------------------------------------

  /** What one peer's goroutine keeps: whether `teardown` is set and
      whether it was called successfully (`cleaned`), how many times
      Partition2 and teardown have been called, and the recorded hashes. */
  datatype Peer = Peer(teardown: bool, cleaned: bool, partitions: nat, teardowns: nat, hashes: map<Uint32, seq<Byte>>)

  const Fresh: Peer := Peer(false, false, 0, 0, map[])

  /** One pass of peer i's loop. Only peer 0 partitions, at the first layer
      from 12 on; the teardown Partition2 hands back (always, also with an
      error) is called at the first layer from 17 on; layer 60 ends the loop
      without being recorded, after the chaos calls of that pass. */
  function HealStep(i: nat, partitionErr: Option<string>, teardownErr: Option<string>, s: Peer, l: Layer): Verdict<Peer>
  {
    var partitioning := i == 0 && l.number >= Healing.PartitionAt && !s.teardown;
    var s1 := if partitioning then s.(teardown := true, partitions := s.partitions + 1) else s;
    if partitioning && partitionErr.Some? then Verdict(s1, false, partitionErr)
    else
      var restoring := l.number >= Healing.RestoreAt && s1.teardown && !s1.cleaned;
      var s2 := if restoring then s1.(teardowns := s1.teardowns + 1) else s1;
      if restoring && teardownErr.Some? then Verdict(s2, false, teardownErr)
      else
        var s3 := if restoring then s2.(cleaned := true) else s2;
        if l.number == Healing.Wait then Verdict(s3, false, None)
        else Verdict(s3.(hashes := s3.hashes[l.number := l.hash]), true, None)
  }

  function Heal(i: nat, partitionErr: Option<string>, teardownErr: Option<string>): (Peer, Layer) -> Verdict<Peer>
  {
    (s, l) => HealStep(i, partitionErr, teardownErr, s, l)
  }

  /** The chaos bookkeeping every state of peer i's loop keeps: Partition2
      at most once and only on peer 0, teardown at most once and only after
      Partition2, `cleaned` only after a teardown call. */
  predicate Consistent(i: nat, s: Peer)
  {
    && s.partitions <= 1
    && s.teardowns <= s.partitions
    && s.teardown == (s.partitions == 1)
    && (s.cleaned ==> s.teardowns == 1)
    && (i != 0 ==> s.partitions == 0)
  }

  /** Every run of peer i's loop keeps the bookkeeping; a failed teardown
      ends it with that error; Partition2 is called only once a layer from
      12 on has arrived; a run that ends without error stopped at layer 60,
      on peer 0 after both the partition and its successful teardown. */
  lemma {:induction false} HealFold(i: nat, partitionErr: Option<string>, teardownErr: Option<string>, s: Peer,
                                    items: seq<Recv<Layer>>)
    requires Consistent(i, s) && (s.teardowns == 1 ==> s.cleaned)
    decreases |items|
    ensures var o := Fold(Heal(i, partitionErr, teardownErr), s, items);
      && Consistent(i, o.state)
      && (o.state.teardowns == 1 && !o.state.cleaned ==> o.err == teardownErr)
      && (s.partitions == 0 && o.state.partitions == 1 ==>
            exists j :: 0 <= j < o.consumed && items[j].event.number >= Healing.PartitionAt)
      && (o.err.None? ==>
            && 1 <= o.consumed
            && items[o.consumed - 1].event.number == Healing.Wait
            && (i == 0 ==> o.state.cleaned))
  {
    var step := Heal(i, partitionErr, teardownErr);
    if |items| > 0 && items[0].Event? {
      var v := step(s, items[0].event);
      if v.cont {
        var rest := items[1..];
        HealFold(i, partitionErr, teardownErr, v.state, rest);
        var r := Fold(step, v.state, rest);
        assert forall j :: 0 <= j < |rest| ==> rest[j] == items[j + 1];
        if s.partitions == 0 && r.state.partitions == 1 && v.state.partitions == 0 {
          var j :| 0 <= j < r.consumed && rest[j].event.number >= Healing.PartitionAt;
          assert items[j + 1].event.number >= Healing.PartitionAt;
        }
      }
    }
  }

  /** A run of peer i's loop that ends without error holds the hashes of
      the layers before the last one, the last report of a layer winning. */
  lemma {:induction false} HealHashes(i: nat, partitionErr: Option<string>, teardownErr: Option<string>, s: Peer,
                                      items: seq<Recv<Layer>>)
    decreases |items|
    ensures var o := Fold(Heal(i, partitionErr, teardownErr), s, items);
      o.err.None? ==>
        && 1 <= o.consumed
        && o.state.hashes
           == RecordAll(s.hashes, EventsOf(items[..o.consumed - 1]), Healing.Always, Healing.Number, Healing.HashOf)
  {
    var step := Heal(i, partitionErr, teardownErr);
    var o := Fold(step, s, items);
    if |items| > 0 && items[0].Event? {
      var v := step(s, items[0].event);
      if v.cont {
        var rest := items[1..];
        HealHashes(i, partitionErr, teardownErr, v.state, rest);
        if o.err.None? {
          EventsOfCons(items, o.consumed - 1);
        }
      } else {
        assert items[..0] == [];
      }
    }
  }

  /** TestHealing's comparison: the first result is the reference; every
      later one that differs is a failure, recorded without stopping. The
      result lists the failing positions in order. */
  method CompareWithFirst<T(==)>(results: seq<T>) returns (failed: seq<nat>)
    ensures forall i :: i in failed <==> 1 <= i < |results| && results[i] != results[0]
    ensures forall a, b :: 0 <= a < b < |failed| ==> failed[a] < failed[b]
  {
    failed := [];
    if |results| == 0 {
      return;
    }
    for i := 1 to |results|
      invariant forall c :: c in failed <==> 1 <= c < i && results[c] != results[0]
      invariant forall a, b :: 0 <= a < b < |failed| ==> failed[a] < failed[b]
      invariant forall a :: 0 <= a < |failed| ==> failed[a] < i
    {
      if results[i] != results[0] {
        failed := failed + [i];
      }
    }
  }

  // ---------------------------------------------------------------------
  // TestTransactions
  // ---------------------------------------------------------------------

  const StopSending: Uint32 := 14
  const StopWaiting: Uint32 := 16
  const BatchSize: nat := 20
  const Amount: Uint64 := 100

  /** The recipient of every transfer: 11, 1, 1 and seventeen zero bytes. */
  const Recipient: Address := [11, 1, 1, 0, 0, 0, 0, 0, 0, 0, 0, 0, 0, 0, 0, 0, 0, 0, 0, 0]

  /** The transfer a sender submits with a given nonce. */
  function Transfer(nonce: Uint64): Transaction
  {
    Transaction(nonce, Recipient, 100, 1, Amount)
  }

  /** The error submitTransacition returns for a reply. */
  function Rejection(reply: SubmitReply): Option<string>
  {
    match reply
    case RpcFailed(e) => Some(e)
    case Replied(stateSet) => if stateSet then None else Some(NilTxState)
  }

  /** The error of submitting the transfer with this nonce, signed with
      `sign`, to a node answering `rpc`. */
  function Submission(sign: seq<Byte> -> seq<Byte>, rpc: seq<Byte> -> SubmitReply, nonce: Uint64): Option<string>
  {
    Rejection(rpc(Signed(Transfer(nonce), sign)))
  }

  /** `nonce++` on a uint64. */
  function NextNonce(n: Uint64): Uint64
  {
    (n + 1) % Uint64Modulus
  }

  /** A sender's nonce, and the nonces of the transfers the node accepted,
      in order. */
  datatype Sent = Sent(nonce: Uint64, submitted: seq<Uint64>)

  /** The remaining `left` submissions of a batch: each accepted transfer
      advances the nonce; the first rejected one ends the batch with its
      error. */
  function BatchFrom(sign: seq<Byte> -> seq<Byte>, rpc: seq<Byte> -> SubmitReply, s: Sent, left: nat): (Sent, Option<string>)
    decreases left
  {
    if left == 0 then (s, None)
    else match Submission(sign, rpc, s.nonce)
      case Some(e) => (s, Some(e))
      case None => BatchFrom(sign, rpc, Sent(NextNonce(s.nonce), s.submitted + [s.nonce]), left - 1)
  }

  /** The accepted transfers carry the nonces 0, 1, 2, ... in order, and the
      nonce is the next one. */
  predicate Consecutive(s: Sent)
  {
    && s.nonce == |s.submitted| % Uint64Modulus
    && forall j :: 0 <= j < |s.submitted| ==> s.submitted[j] == j % Uint64Modulus
  }

  /** s' extends s: its nonces are still consecutive, s's transfers come
      first, and every later one was accepted. */
  ghost predicate Extends(sign: seq<Byte> -> seq<Byte>, rpc: seq<Byte> -> SubmitReply, s: Sent, s': Sent)
  {
    && Consecutive(s')
    && |s.submitted| <= |s'.submitted|
    && s'.submitted[..|s.submitted|] == s.submitted
    && forall j :: |s.submitted| <= j < |s'.submitted| ==> Submission(sign, rpc, s'.submitted[j]).None?
  }

  lemma ExtendsTransitive(sign: seq<Byte> -> seq<Byte>, rpc: seq<Byte> -> SubmitReply, a: Sent, b: Sent, c: Sent)
    requires Extends(sign, rpc, a, b) && Extends(sign, rpc, b, c)
    ensures Extends(sign, rpc, a, c)
  {
    assert c.submitted[..|a.submitted|] == c.submitted[..|b.submitted|][..|a.submitted|];
  }

  /** An accepted transfer with the current nonce, and the nonce advanced. */
  lemma AcceptOne(sign: seq<Byte> -> seq<Byte>, rpc: seq<Byte> -> SubmitReply, s: Sent)
    requires Consecutive(s) && Submission(sign, rpc, s.nonce).None?
    ensures Extends(sign, rpc, s, Sent(NextNonce(s.nonce), s.submitted + [s.nonce]))
  {
    ModAdd(|s.submitted|, 1);
    var next := s.submitted + [s.nonce];
    assert next[..|s.submitted|] == s.submitted;
  }

  /** A batch keeps the nonces consecutive and adds only accepted
      transfers: all `left` of them when it ends without error, fewer when a
      submission fails, the error then being that submission's. */
  lemma {:induction false} BatchFromKeepsOrder(sign: seq<Byte> -> seq<Byte>, rpc: seq<Byte> -> SubmitReply, s: Sent, left: nat)
    requires Consecutive(s)
    decreases left
    ensures var b := BatchFrom(sign, rpc, s, left);
      var s', e := b.0, b.1;
      && Extends(sign, rpc, s, s')
      && |s'.submitted| <= |s.submitted| + left
      && (e.None? <==> |s'.submitted| == |s.submitted| + left)
      && (e.Some? ==> e == Submission(sign, rpc, s'.nonce))
  {
    if left > 0 && Submission(sign, rpc, s.nonce).None? {
      var next := Sent(NextNonce(s.nonce), s.submitted + [s.nonce]);
      AcceptOne(sign, rpc, s);
      BatchFromKeepsOrder(sign, rpc, next, left - 1);
      ExtendsTransitive(sign, rpc, s, next, BatchFrom(sign, rpc, next, left - 1).0);
    } else {
      assert s.submitted[..|s.submitted|] == s.submitted;
    }
  }

  /** The batch loop: `size` submissions through submitTransacition, the
      nonce incremented after each accepted one, the first error returned. */
  method SendBatch(sign: seq<Byte> -> seq<Byte>, rpc: seq<Byte> -> SubmitReply, size: nat, s: Sent)
    returns (s': Sent, err: Option<string>)
    ensures (s', err) == BatchFrom(sign, rpc, s, size)
  {
    s' := s;
    var j := 0;
    while j < size
      invariant j <= size
      invariant BatchFrom(sign, rpc, s, size) == BatchFrom(sign, rpc, s', size - j)
    {
      var payload, e := SubmitTransaction(sign, Transfer(s'.nonce), rpc);
      if e.Some? {
        return s', e;
      }
      s' := Sent(NextNonce(s'.nonce), s'.submitted + [s'.nonce]);
      j := j + 1;
    }
    err := None;
  }

  /** One pass of a sender's loop: layers with a status are passed over;
      layer 14 ends the goroutine with nil; any other layer triggers a batch
      of twenty transfers, a failed one ending the goroutine. */
  function SendStep(sign: seq<Byte> -> seq<Byte>, rpc: seq<Byte> -> SubmitReply, s: Sent, l: Layer): Verdict<Sent>
  {
    if l.status != Unspecified then Verdict(s, true, None)
    else if l.number == StopSending then Verdict(s, false, None)
    else
      var b := BatchFrom(sign, rpc, s, BatchSize);
      Verdict(b.0, b.1.None?, b.1)
  }

  function Sender(sign: seq<Byte> -> seq<Byte>, rpc: seq<Byte> -> SubmitReply): (Sent, Layer) -> Verdict<Sent>
  {
    (s, l) => SendStep(sign, rpc, s, l)
  }

  /** A sender's goroutine: the layer stream and its loop, with the batch
      loop inside it. */
  method Send(sign: seq<Byte> -> seq<Byte>, rpc: seq<Byte> -> SubmitReply, stream: Stream<Layer>) returns (o: Outcome<Sent>)
    ensures o == Collect(Sender(sign, rpc), Sent(0, []), stream)
  {
    var s0 := Sent(0, []);
    if stream.Refused? {
      return Outcome(s0, Some(stream.err), 0);
    }
    var step := Sender(sign, rpc);
    var items := stream.items;
    var state := s0;
    var k := 0;
    while true
      invariant k <= |items|
      invariant Fold(step, s0, items)
        == var r := Fold(step, state, items[k..]); Outcome(r.state, r.err, r.consumed + k)
      decreases |items| - k
    {
      if k == |items| {
        return Outcome(state, Some(EOF), k);
      }
      assert items[k..][1..] == items[k + 1..];
      match items[k]
      case RecvError(e) =>
        return Outcome(state, Some(e), k);
      case Event(l) =>
        if l.status != Unspecified {
          k := k + 1;
          continue;
        }
        if l.number == StopSending {
          return Outcome(state, None, k + 1);
        }
        var next, err := SendBatch(sign, rpc, BatchSize, state);
        if err.Some? {
          return Outcome(next, err, k + 1);
        }
        state := next;
        k := k + 1;
    }
  }

  /** How many of the layers were reported without status. */
  function Announced(es: seq<Layer>): nat
  {
    if |es| == 0 then 0 else (if es[0].status == Unspecified then 1 else 0) + Announced(es[1..])
  }

  /** Every run of a sender from any consecutive state keeps the nonces
      consecutive and adds only accepted transfers; a run that ends with nil
      stopped at layer 14 reported without status, after a full batch of
      twenty for every earlier layer reported without status. */
  lemma SendFold(sign: seq<Byte> -> seq<Byte>, rpc: seq<Byte> -> SubmitReply, s: Sent, items: seq<Recv<Layer>>)
    requires Consecutive(s)
    ensures var o := Fold(Sender(sign, rpc), s, items);
      && Consecutive(o.state)
      && |s.submitted| <= |o.state.submitted|
      && o.state.submitted[..|s.submitted|] == s.submitted
      && (forall j :: |s.submitted| <= j < |o.state.submitted| ==> Submission(sign, rpc, o.state.submitted[j]).None?)
      && (o.err.None? ==>
            && 1 <= o.consumed
            && items[o.consumed - 1].event.status == Unspecified
            && items[o.consumed - 1].event.number == StopSending
            && |o.state.submitted| == |s.submitted| + BatchSize * Announced(EventsOf(items[..o.consumed - 1])))
  {
    SendExtends(sign, rpc, s, items);
    SendCount(sign, rpc, s, items);
  }

  lemma {:induction false} SendExtends(sign: seq<Byte> -> seq<Byte>, rpc: seq<Byte> -> SubmitReply, s: Sent, items: seq<Recv<Layer>>)
    requires Consecutive(s)
    decreases |items|
    ensures Extends(sign, rpc, s, Fold(Sender(sign, rpc), s, items).state)
  {
    var step := Sender(sign, rpc);
    var v := s;
    if |items| > 0 && items[0].Event? {
      var l := items[0].event;
      if l.status == Unspecified && l.number != StopSending {
        BatchFromKeepsOrder(sign, rpc, s, BatchSize);
      }
      v := step(s, l).state;
      if step(s, l).cont {
        SendExtends(sign, rpc, v, items[1..]);
        ExtendsTransitive(sign, rpc, s, v, Fold(step, v, items[1..]).state);
        return;
      }
    }
    assert v.submitted[..|s.submitted|] == s.submitted;
  }

  /** One pass of the sender: it ends with nil only at layer 14 reported
      without status; an accepted pass keeps the nonces consecutive and
      adds a batch of twenty exactly for a layer without status. */
  lemma SendStepCount(sign: seq<Byte> -> seq<Byte>, rpc: seq<Byte> -> SubmitReply, s: Sent, l: Layer)
    requires Consecutive(s)
    ensures var v := Sender(sign, rpc)(s, l);
      && (!v.cont && v.err.None? ==> l.status == Unspecified && l.number == StopSending)
      && (v.cont ==>
            && Consecutive(v.state)
            && |v.state.submitted| == |s.submitted| + (if l.status == Unspecified then BatchSize else 0))
  {
    var v := SendStep(sign, rpc, s, l);
    assert Sender(sign, rpc)(s, l) == v;
    if l.status == Unspecified && l.number != StopSending {
      BatchFromKeepsOrder(sign, rpc, s, BatchSize);
    }
  }

  lemma {:induction false} SendCount(sign: seq<Byte> -> seq<Byte>, rpc: seq<Byte> -> SubmitReply, s: Sent, items: seq<Recv<Layer>>)
    requires Consecutive(s)
    decreases |items|
    ensures var o := Fold(Sender(sign, rpc), s, items);
      o.err.None? ==>
        && 1 <= o.consumed
        && items[o.consumed - 1].event.status == Unspecified
        && items[o.consumed - 1].event.number == StopSending
        && |o.state.submitted| == |s.submitted| + BatchSize * Announced(EventsOf(items[..o.consumed - 1]))
  {
    var step := Sender(sign, rpc);
    var o := Fold(step, s, items);
    if |items| > 0 && items[0].Event? {
      var l := items[0].event;
      SendStepCount(sign, rpc, s, l);
      var v := step(s, l);
      if v.cont {
        SendCount(sign, rpc, v.state, items[1..]);
        if o.err.None? {
          EventsOfCons(items, o.consumed - 1);
        }
      } else {
        assert items[..0] == [];
      }
    }
  }

  /** The transactions of the single block of every confirmed layer. */
  function SingleBlockTxs(es: seq<Layer>): seq<MeshTx>
  {
    if |es| == 0 then []
    else
      var l := es[0];
      (if l.status == Confirmed && |l.blocks| == 1 then l.blocks[0].transactions else []) + SingleBlockTxs(es[1..])
  }

  /** One pass of a receiver's loop: layers that are not confirmed are
      passed over; confirmed layer 16 ends the loop; a confirmed layer with
      other than one block ends the goroutine with an error naming it
      (`show` is the text formatting gives the layer number); any other
      adds the transactions of its block. */
  function GatherStep(show: Uint32 -> string, txs: seq<MeshTx>, l: Layer): Verdict<seq<MeshTx>>
  {
    if l.status != Confirmed then Verdict(txs, true, None)
    else if l.number == StopWaiting then Verdict(txs, false, None)
    else if |l.blocks| != 1 then Verdict(txs, false, Some("layer with block " + show(l.number)))
    else Verdict(txs + l.blocks[0].transactions, true, None)
  }

  function Gather(show: Uint32 -> string): (seq<MeshTx>, Layer) -> Verdict<seq<MeshTx>>
  {
    (txs, l) => GatherStep(show, txs, l)
  }

  /** A receiver goes on exactly while every confirmed layer is not 16 and
      has one block, and meanwhile holds the transactions of those blocks
      in order. */
  lemma {:induction false} GatherContinues(show: Uint32 -> string, txs: seq<MeshTx>, es: seq<Layer>)
    decreases |es|
    ensures Continues(Gather(show), txs, es)
      <==> forall j :: 0 <= j < |es| && es[j].status == Confirmed ==>
             es[j].number != StopWaiting && |es[j].blocks| == 1
    ensures Continues(Gather(show), txs, es) ==> Feed(Gather(show), txs, es) == txs + SingleBlockTxs(es)
  {
    if |es| > 0 {
      var rest := es[1..];
      GatherContinues(show, GatherStep(show, txs, es[0]).state, rest);
      assert forall j :: 0 <= j < |rest| ==> rest[j] == es[j + 1];
      if Continues(Gather(show), txs, es) {
        assert txs + SingleBlockTxs(es)
          == (txs + (if es[0].status == Confirmed then es[0].blocks[0].transactions else [])) + SingleBlockTxs(rest);
      }
    }
  }

  /** A receiver's goroutine ends with nil exactly when confirmed layer 16
      arrived; its transactions are then those of the single blocks of the
      confirmed layers before it, each of which had exactly one block. */
  lemma GatherOutcome(show: Uint32 -> string, stream: Stream<Layer>)
    ensures var o := Collect(Gather(show), [], stream);
      && (o.err.None? <==>
            && stream.Opened? && o.consumed >= 1
            && stream.items[o.consumed - 1].event.status == Confirmed
            && stream.items[o.consumed - 1].event.number == StopWaiting)
      && (o.err.None? ==>
            && (forall j :: 0 <= j < o.consumed - 1 && stream.items[j].event.status == Confirmed ==>
                  |stream.items[j].event.blocks| == 1)
            && o.state == SingleBlockTxs(EventsOf(stream.items[..o.consumed - 1])))
  {
    if stream.Opened? {
      var items := stream.items;
      var o := Fold(Gather(show), [], items);
      FoldOutcome(Gather(show), [], items);
      if Exhausted(Gather(show), [], items, o) {
        GatherContinues(show, [], EventsOf(items));
      } else if FailedAt(Gather(show), [], items, o) {
        GatherContinues(show, [], EventsOf(items[..o.consumed]));
      } else {
        GatherContinues(show, [], EventsOf(items[..o.consumed - 1]));
      }
    }
  }

  /** The comparison: the first result is the reference and must not be
      empty; every later one must have its length and equal it entry by
      entry. Each check is a require, so the first failure ends the test. */
  method CompareTransactions(results: seq<seq<MeshTx>>) returns (failure: Option<Failure>)
    ensures failure.None?
      <==> |results| == 0 || (|results[0]| > 0 && forall i :: 0 <= i < |results| ==> results[i] == results[0])
    ensures failure == Some(UnexpectedEmpty) <==> |results| > 0 && |results[0]| == 0
    ensures failure.Some? && failure != Some(UnexpectedEmpty) ==>
      exists i :: 1 <= i < |results| && FirstMismatch(results, i, failure.value)
  {
    if |results| == 0 {
      return None;
    }
    var reference := results[0];
    if |reference| == 0 {
      return Some(UnexpectedEmpty);
    }
    for i := 1 to |results|
      invariant forall c :: 0 <= c < i ==> results[c] == reference
    {
      var compared := results[i];
      if |compared| != |reference| {
        assert FirstMismatch(results, i, WrongLength(|reference|, |compared|));
        return Some(WrongLength(|reference|, |compared|));
      }
      for j := 0 to |reference|
        invariant compared[..j] == reference[..j]
      {
        if reference[j] != compared[j] {
          assert FirstMismatch(results, i, NotEqual(j));
          return Some(NotEqual(j));
        }
      }
      assert compared == compared[..|reference|];
    }
    return None;
  }

  /** Result i is the first to differ from the reference, and `f` is what
      the first failing require reports about it: the lengths, or the first
      position where the entries differ. */
  ghost predicate FirstMismatch(results: seq<seq<MeshTx>>, i: nat, f: Failure)
    requires 1 <= i < |results|
  {
    && (forall c :: 0 <= c < i ==> results[c] == results[0])
    && (|results[i]| != |results[0]| ==> f == WrongLength(|results[0]|, |results[i]|))
    && (|results[i]| == |results[0]| ==>
          && f.NotEqual?
          && f.index < |results[0]|
          && results[i][f.index] != results[0][f.index]
          && results[i][..f.index] == results[0][..f.index])
  }
}
