/** tests/transactions_test.go: the other revision of TestTransactions. A
    sender submits a batch of five transfers for every confirmed layer
    above the highest it has seen, until layer 14; a receiver gathers the
    transactions of every block of every confirmed layer until layer 16.
    The transfer, the batch loop and the final comparison are the same as
    in tests/sanity_test.go and are taken from Sanity. */
module Transactions {
  import opened Prelude
  import opened Mesh
  import opened Streams
  import opened TestsCommon
  import opened Sanity

  const Batch: nat := 5

  /** A sender's nonce and accepted transfers, and the highest confirmed
      layer it has seen. */
  datatype Sending = Sending(sent: Sent, maxLayer: Uint32)

  /** One pass of a sender's loop: layers that are not confirmed, and
      confirmed layers not above the highest seen, are passed over; any
      other becomes the highest seen, and then layer 14 ends the goroutine
      with nil and any other triggers a batch of five transfers. */
  function SendStep(sign: seq<Byte> -> seq<Byte>, rpc: seq<Byte> -> SubmitReply, s: Sending, l: Layer): Verdict<Sending>
  {
    if l.status != Confirmed || l.number <= s.maxLayer then Verdict(s, true, None)
    else if l.number == StopSending then Verdict(s.(maxLayer := l.number), false, None)
    else
      var b := BatchFrom(sign, rpc, s.sent, Batch);
      Verdict(Sending(b.0, l.number), b.1.None?, b.1)
  }

  function Sender(sign: seq<Byte> -> seq<Byte>, rpc: seq<Byte> -> SubmitReply): (Sending, Layer) -> Verdict<Sending>
  {
    (s, l) => SendStep(sign, rpc, s, l)
  }

  const Start: Sending := Sending(Sent(0, []), 0)

  /** A sender's goroutine: the layer stream and its loop, with the batch
      loop inside it. */
  method Send(sign: seq<Byte> -> seq<Byte>, rpc: seq<Byte> -> SubmitReply, stream: Stream<Layer>) returns (o: Outcome<Sending>)
    ensures o == Collect(Sender(sign, rpc), Start, stream)
  {
    if stream.Refused? {
      return Outcome(Start, Some(stream.err), 0);
    }
    var step := Sender(sign, rpc);
    var items := stream.items;
    var state := Start;
    var k := 0;
    while true
      invariant k <= |items|
      invariant Fold(step, Start, items)
        == var r := Fold(step, state, items[k..]); Outcome(r.state, r.err, r.consumed + k)
      decreases |items| - k
    {
      if k == |items| {
        return Outcome(state, Some(EOF), k);
      }
      assert items[k..][1..] == items[k + 1..];
      match items[k]
      case RecvError(e) =>
        return Outcome(state, Some(e), k);
      case Event(l) =>
        if l.status != Confirmed || l.number <= state.maxLayer {
          k := k + 1;
          continue;
        }
        state := state.(maxLayer := l.number);
        if l.number == StopSending {
          return Outcome(state, None, k + 1);
        }
        var next, err := SendBatch(sign, rpc, Batch, state.sent);
        state := state.(sent := next);
        if err.Some? {
          return Outcome(state, err, k + 1);
        }
        k := k + 1;
    }
  }

  /** How many confirmed layers rise above the highest one seen before
      them, starting from `m`. */
  function Advances(m: Uint32, es: seq<Layer>): nat
    decreases |es|
  {
    if |es| == 0 then 0
    else if es[0].status == Confirmed && es[0].number > m then 1 + Advances(es[0].number, es[1..])
    else Advances(m, es[1..])
  }

  /** Every run of a sender keeps the nonces consecutive and adds only
      accepted transfers. */
  lemma SendKeepsOrder(sign: seq<Byte> -> seq<Byte>, rpc: seq<Byte> -> SubmitReply, s: Sending,
                          items: seq<Recv<Layer>>)
    requires Consecutive(s.sent)
    ensures var o := Fold(Sender(sign, rpc), s, items);
      && Consecutive(o.state.sent)
      && |s.sent.submitted| <= |o.state.sent.submitted|
      && o.state.sent.submitted[..|s.sent.submitted|] == s.sent.submitted
      && (forall j :: |s.sent.submitted| <= j < |o.state.sent.submitted| ==>
            Submission(sign, rpc, o.state.sent.submitted[j]).None?)
  {
    SendExtends(sign, rpc, s, items);
  }

  lemma {:induction false} SendExtends(sign: seq<Byte> -> seq<Byte>, rpc: seq<Byte> -> SubmitReply, s: Sending,
                                       items: seq<Recv<Layer>>)
    requires Consecutive(s.sent)
    decreases |items|
    ensures Extends(sign, rpc, s.sent, Fold(Sender(sign, rpc), s, items).state.sent)
  {
    var step := Sender(sign, rpc);
    var v := s;
    if |items| > 0 && items[0].Event? {
      var l := items[0].event;
      if l.status == Confirmed && l.number > s.maxLayer && l.number != StopSending {
        BatchFromKeepsOrder(sign, rpc, s.sent, Batch);
      }
      v := step(s, l).state;
      if step(s, l).cont {
        SendExtends(sign, rpc, v, items[1..]);
        ExtendsTransitive(sign, rpc, s.sent, v.sent, Fold(step, v, items[1..]).state.sent);
        return;
      }
    }
    assert v.sent.submitted[..|s.sent.submitted|] == s.sent.submitted;
  }

  /** The highest layer seen only grows and bounds every confirmed layer
      handed over; a run that ends with nil stopped at confirmed layer 14,
      above every confirmed layer before it. */
  lemma SendStops(sign: seq<Byte> -> seq<Byte>, rpc: seq<Byte> -> SubmitReply, s: Sending,
                  items: seq<Recv<Layer>>)
    ensures var o := Fold(Sender(sign, rpc), s, items);
      && s.maxLayer <= o.state.maxLayer
      && (forall j :: 0 <= j < o.consumed && items[j].event.status == Confirmed ==>
            items[j].event.number <= o.state.maxLayer)
      && (o.err.None? ==>
            && 1 <= o.consumed
            && items[o.consumed - 1].event.status == Confirmed
            && items[o.consumed - 1].event.number == StopSending
            && o.state.maxLayer == StopSending
            && s.maxLayer < StopSending
            && (forall j :: 0 <= j < o.consumed - 1 && items[j].event.status == Confirmed ==>
                  items[j].event.number < StopSending))
  {
    MaxLayerBounds(sign, rpc, s, items);
    StopsAtFourteen(sign, rpc, s, items);
  }

  /** The highest layer seen only grows and bounds every confirmed layer
      handed over. */
  lemma {:induction false} MaxLayerBounds(sign: seq<Byte> -> seq<Byte>, rpc: seq<Byte> -> SubmitReply, s: Sending,
                                          items: seq<Recv<Layer>>)
    decreases |items|
    ensures var o := Fold(Sender(sign, rpc), s, items);
      && s.maxLayer <= o.state.maxLayer
      && (forall j :: 0 <= j < o.consumed && items[j].event.status == Confirmed ==>
            items[j].event.number <= o.state.maxLayer)
  {
    var step := Sender(sign, rpc);
    if |items| > 0 && items[0].Event? {
      SendStepMax(sign, rpc, s, items[0].event);
      var v := step(s, items[0].event);
      if v.cont {
        var rest := items[1..];
        MaxLayerBounds(sign, rpc, v.state, rest);
        var o := Fold(step, s, items);
        var r := Fold(step, v.state, rest);
        assert o.state == r.state && o.consumed == r.consumed + 1;
        forall j | 0 < j < o.consumed && items[j].event.status == Confirmed
          ensures items[j].event.number <= o.state.maxLayer
        {
          assert items[j] == rest[j - 1];
        }
      }
    }
  }

  /** A run that ends with nil stopped at confirmed layer 14, above the
      highest seen and above every confirmed layer before it. */
  lemma {:induction false} StopsAtFourteen(sign: seq<Byte> -> seq<Byte>, rpc: seq<Byte> -> SubmitReply, s: Sending,
                                           items: seq<Recv<Layer>>)
    decreases |items|
    ensures var o := Fold(Sender(sign, rpc), s, items);
      o.err.None? ==>
        && 1 <= o.consumed
        && items[o.consumed - 1].event.status == Confirmed
        && items[o.consumed - 1].event.number == StopSending
        && o.state.maxLayer == StopSending
        && s.maxLayer < StopSending
        && (forall j :: 0 <= j < o.consumed - 1 && items[j].event.status == Confirmed ==>
              items[j].event.number < StopSending)
  {
    var step := Sender(sign, rpc);
    if |items| > 0 && items[0].Event? {
      SendStepMax(sign, rpc, s, items[0].event);
      var v := step(s, items[0].event);
      if v.cont {
        StopsAtFourteen(sign, rpc, v.state, items[1..]);
        StopsLater(sign, rpc, s, items);
      } else {
        assert Fold(step, s, items) == Outcome(v.state, v.err, 1);
      }
    }
  }

  /** When the first layer lets the sender go on, a stop at 14 later in the
      stream is one for the whole stream. */
  lemma StopsLater(sign: seq<Byte> -> seq<Byte>, rpc: seq<Byte> -> SubmitReply, s: Sending, items: seq<Recv<Layer>>)
    requires |items| > 0 && items[0].Event?
    requires Sender(sign, rpc)(s, items[0].event).cont
    requires var v := Sender(sign, rpc)(s, items[0].event);
      var rest := items[1..];
      var r := Fold(Sender(sign, rpc), v.state, rest);
      r.err.None? ==>
        && 1 <= r.consumed
        && rest[r.consumed - 1].event.status == Confirmed
        && rest[r.consumed - 1].event.number == StopSending
        && r.state.maxLayer == StopSending
        && v.state.maxLayer < StopSending
        && (forall j :: 0 <= j < r.consumed - 1 && rest[j].event.status == Confirmed ==>
              rest[j].event.number < StopSending)
    ensures var o := Fold(Sender(sign, rpc), s, items);
      o.err.None? ==>
        && 1 <= o.consumed
        && items[o.consumed - 1].event.status == Confirmed
        && items[o.consumed - 1].event.number == StopSending
        && o.state.maxLayer == StopSending
        && (forall j :: 0 < j < o.consumed - 1 && items[j].event.status == Confirmed ==>
              items[j].event.number < StopSending)
  {
    var step := Sender(sign, rpc);
    var v := step(s, items[0].event);
    var rest := items[1..];
    var r := Fold(step, v.state, rest);
    var o := Fold(step, s, items);
    assert o == Outcome(r.state, r.err, r.consumed + 1);
    if o.err.None? {
      assert items[o.consumed - 1] == rest[r.consumed - 1];
      forall j | 0 < j < o.consumed - 1 && items[j].event.status == Confirmed
        ensures items[j].event.number < StopSending
      {
        assert items[j] == rest[j - 1];
      }
    }
  }

  /** One pass of the sender: a confirmed layer above the highest seen
      becomes the highest; the pass ends with nil only at layer 14. */
  lemma SendStepMax(sign: seq<Byte> -> seq<Byte>, rpc: seq<Byte> -> SubmitReply, s: Sending, l: Layer)
    ensures var v := Sender(sign, rpc)(s, l);
      && v.state.maxLayer == (if l.status == Confirmed && l.number > s.maxLayer then l.number else s.maxLayer)
      && (!v.cont && v.err.None? ==> l.status == Confirmed && l.number == StopSending && s.maxLayer < StopSending)
  {
    var v := SendStep(sign, rpc, s, l);
    assert Sender(sign, rpc)(s, l) == v;
  }

  /** A run that ends with nil submitted a full batch of five for every
      confirmed layer that rose above the highest seen. */
  lemma {:induction false} SendCount(sign: seq<Byte> -> seq<Byte>, rpc: seq<Byte> -> SubmitReply, s: Sending,
                                     items: seq<Recv<Layer>>)
    requires Consecutive(s.sent)
    decreases |items|
    ensures var o := Fold(Sender(sign, rpc), s, items);
      o.err.None? ==>
        && 1 <= o.consumed
        && |o.state.sent.submitted|
           == |s.sent.submitted| + Batch * Advances(s.maxLayer, EventsOf(items[..o.consumed - 1]))
  {
    var step := Sender(sign, rpc);
    var o := Fold(step, s, items);
    if |items| > 0 && items[0].Event? {
      var l := items[0].event;
      SendStepCount(sign, rpc, s, l);
      var v := step(s, l);
      if v.cont {
        SendCount(sign, rpc, v.state, items[1..]);
        if o.err.None? {
          EventsOfCons(items, o.consumed - 1);
        }
      } else {
        assert items[..0] == [];
      }
    }
  }

  /** One accepted pass of the sender keeps the nonces consecutive and adds
      a batch of five exactly when the layer rises above the highest seen. */
  lemma SendStepCount(sign: seq<Byte> -> seq<Byte>, rpc: seq<Byte> -> SubmitReply, s: Sending, l: Layer)
    requires Consecutive(s.sent)
    ensures var v := Sender(sign, rpc)(s, l);
      && v.state.maxLayer == (if l.status == Confirmed && l.number > s.maxLayer then l.number else s.maxLayer)
      && (v.cont ==>
            && Consecutive(v.state.sent)
            && |v.state.sent.submitted|
               == |s.sent.submitted| + (if l.status == Confirmed && l.number > s.maxLayer then Batch else 0))
  {
    var v := SendStep(sign, rpc, s, l);
    assert Sender(sign, rpc)(s, l) == v;
    if l.status == Confirmed && l.number > s.maxLayer && l.number != StopSending {
      BatchFromKeepsOrder(sign, rpc, s.sent, Batch);
    }
  }

  /** A sender's goroutine from the start: the transfers the nodes accepted
      carry the nonces 0, 1, 2, ... in order; ending with nil, it submitted
      five for each confirmed layer that rose above the highest seen before
      confirmed layer 14. */
  lemma SendOutcome(sign: seq<Byte> -> seq<Byte>, rpc: seq<Byte> -> SubmitReply, stream: Stream<Layer>)
    ensures var o := Collect(Sender(sign, rpc), Start, stream);
      && Consecutive(o.state.sent)
      && (forall j :: 0 <= j < |o.state.sent.submitted| ==> Submission(sign, rpc, o.state.sent.submitted[j]).None?)
      && (o.err.None? ==>
            && stream.Opened? && 1 <= o.consumed
            && stream.items[o.consumed - 1].event.status == Confirmed
            && stream.items[o.consumed - 1].event.number == StopSending
            && |o.state.sent.submitted| == Batch * Advances(0, EventsOf(stream.items[..o.consumed - 1])))
  {
    if stream.Opened? {
      SendKeepsOrder(sign, rpc, Start, stream.items);
      SendStops(sign, rpc, Start, stream.items);
      SendCount(sign, rpc, Start, stream.items);
    }
  }

  // ---------------------------------------------------------------------
  // The receivers
  // ---------------------------------------------------------------------

  /** The transactions of the blocks, block after block. */
  function BlockTxs(blocks: seq<Block>): (r: seq<MeshTx>)
    ensures forall t :: t in r <==> exists b :: b in blocks && t in b.transactions
  {
    if |blocks| == 0 then []
    else
      var r := blocks[0].transactions + BlockTxs(blocks[1..]);
      assert forall b :: b in blocks[1..] ==> b in blocks;
      assert forall b :: b in blocks ==> b == blocks[0] || b in blocks[1..];
      r
  }

  /** The loop gathering a layer's transactions from all its blocks. */
  method GatherBlocks(blocks: seq<Block>) returns (addtxs: seq<MeshTx>)
    ensures addtxs == BlockTxs(blocks)
  {
    addtxs := [];
    for i := 0 to |blocks|
      invariant addtxs + BlockTxs(blocks[i..]) == BlockTxs(blocks)
    {
      assert blocks[i..][1..] == blocks[i + 1..];
      addtxs := addtxs + blocks[i].transactions;
    }
    assert blocks[|blocks|..] == [];
  }

  /** The transactions of every block of every confirmed layer. */
  function ConfirmedTxs(es: seq<Layer>): seq<MeshTx>
  {
    if |es| == 0 then []
    else (if es[0].status == Confirmed then BlockTxs(es[0].blocks) else []) + ConfirmedTxs(es[1..])
  }

  /** One pass of a receiver's loop: layers that are not confirmed are
      passed over; confirmed layer 16 ends the loop; any other adds the
      transactions of all its blocks. */
  function GatherStep(txs: seq<MeshTx>, l: Layer): Verdict<seq<MeshTx>>
  {
    if l.status != Confirmed then Verdict(txs, true, None)
    else if l.number == StopWaiting then Verdict(txs, false, None)
    else Verdict(txs + BlockTxs(l.blocks), true, None)
  }

  /** A receiver's goroutine: the layer stream and its loop, with the block
      loop inside it. */
  method Gather(stream: Stream<Layer>) returns (o: Outcome<seq<MeshTx>>)
    ensures o == Collect(GatherStep, [], stream)
  {
    if stream.Refused? {
      return Outcome([], Some(stream.err), 0);
    }
    var items := stream.items;
    var txs: seq<MeshTx> := [];
    var k := 0;
    while true
      invariant k <= |items|
      invariant Fold(GatherStep, [], items)
        == var r := Fold(GatherStep, txs, items[k..]); Outcome(r.state, r.err, r.consumed + k)
      decreases |items| - k
    {
      if k == |items| {
        return Outcome(txs, Some(EOF), k);
      }
      assert items[k..][1..] == items[k + 1..];
      match items[k]
      case RecvError(e) =>
        return Outcome(txs, Some(e), k);
      case Event(l) =>
        if l.status != Confirmed {
          k := k + 1;
          continue;
        }
        if l.number == StopWaiting {
          return Outcome(txs, None, k + 1);
        }
        var addtxs := GatherBlocks(l.blocks);
        txs := txs + addtxs;
        k := k + 1;
    }
  }

  /** A receiver goes on exactly while no confirmed layer is 16, and
      meanwhile holds the transactions of all blocks of the confirmed
      layers in order. */
  lemma {:induction false} GatherContinues(txs: seq<MeshTx>, es: seq<Layer>)
    decreases |es|
    ensures Continues(GatherStep, txs, es)
      <==> forall j :: 0 <= j < |es| ==> !(es[j].status == Confirmed && es[j].number == StopWaiting)
    ensures Continues(GatherStep, txs, es) ==> Feed(GatherStep, txs, es) == txs + ConfirmedTxs(es)
  {
    if |es| > 0 {
      var rest := es[1..];
      GatherContinues(GatherStep(txs, es[0]).state, rest);
      assert forall j :: 0 <= j < |rest| ==> rest[j] == es[j + 1];
      if Continues(GatherStep, txs, es) {
        assert txs + ConfirmedTxs(es)
          == (txs + (if es[0].status == Confirmed then BlockTxs(es[0].blocks) else [])) + ConfirmedTxs(rest);
      }
    }
  }

  /** A receiver's goroutine ends with nil exactly when confirmed layer 16
      arrived, and then holds the transactions of all blocks of the
      confirmed layers before it. */
  lemma GatherOutcome(stream: Stream<Layer>)
    ensures var o := Collect(GatherStep, [], stream);
      && (o.err.None? <==>
            && stream.Opened? && o.consumed >= 1
            && stream.items[o.consumed - 1].event.status == Confirmed
            && stream.items[o.consumed - 1].event.number == StopWaiting)
      && (o.err.None? ==> o.state == ConfirmedTxs(EventsOf(stream.items[..o.consumed - 1])))
  {
    if stream.Opened? {
      var items := stream.items;
      var o := Fold(GatherStep, [], items);
      FoldOutcome(GatherStep, [], items);
      if Exhausted(GatherStep, [], items, o) {
        GatherExhausted(items, o);
      } else if FailedAt(GatherStep, [], items, o) {
        GatherFailed(items, o);
      } else {
        GatherStopped(items, o);
      }
    }
  }

  /** A stream that runs out ends with EOF before any confirmed layer 16. */
  lemma GatherExhausted(items: seq<Recv<Layer>>, o: Outcome<seq<MeshTx>>)
    requires Exhausted(GatherStep, [], items, o)
    ensures o.err.Some?
    ensures o.consumed >= 1 ==>
      !(items[o.consumed - 1].event.status == Confirmed && items[o.consumed - 1].event.number == StopWaiting)
  {
    if o.consumed >= 1 {
      GatherContinues([], EventsOf(items));
      assert EventsOf(items)[o.consumed - 1] == items[o.consumed - 1].event;
    }
  }

  /** A failed Recv ends with its error before any confirmed layer 16. */
  lemma GatherFailed(items: seq<Recv<Layer>>, o: Outcome<seq<MeshTx>>)
    requires FailedAt(GatherStep, [], items, o)
    ensures o.err.Some?
    ensures o.consumed >= 1 ==>
      !(items[o.consumed - 1].event.status == Confirmed && items[o.consumed - 1].event.number == StopWaiting)
  {
    var k := o.consumed;
    if k >= 1 {
      GatherContinues([], EventsOf(items[..k]));
      assert EventsOf(items[..k])[k - 1] == items[k - 1].event;
    }
  }

  /** The receiver stops only at confirmed layer 16, with nil and the
      transactions of the confirmed layers before it. */
  lemma GatherStopped(items: seq<Recv<Layer>>, o: Outcome<seq<MeshTx>>)
    requires StoppedAt(GatherStep, [], items, o)
    ensures o.err.None?
    ensures items[o.consumed - 1].event.status == Confirmed && items[o.consumed - 1].event.number == StopWaiting
    ensures o.state == ConfirmedTxs(EventsOf(items[..o.consumed - 1]))
  {
    var es := EventsOf(items[..o.consumed - 1]);
    GatherContinues([], es);
    assert [] + ConfirmedTxs(es) == ConfirmedTxs(es);
  }
}
