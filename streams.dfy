/** A peer's gRPC server stream and the receive loop that feeds it to a
    collector (collectLayers, collectProposals and the inline loops of the
    scenarios). The stream is a finite sequence of Recv results: once it is
    used up, Recv reports io.EOF. A collector is a step function over the
    state its closure captures, returning that state, whether to go on, and
    an error. */
module Streams {
  import opened Prelude

  /** One call of Recv: a message, or the error it returned. */
  datatype Recv<E> = Event(event: E) | RecvError(err: string)

  /** The stream call itself failed, or it opened and delivered these. */
  datatype Stream<E> = Refused(err: string) | Opened(items: seq<Recv<E>>)

  /** The text of io.EOF. */
  const EOF: string := "EOF"

  /** What a collector returns for one message: its captured state after
      the call, the boolean, and the error. */
  datatype Verdict<S> = Verdict(state: S, cont: bool, err: Option<string>)

  /** The goroutine's end: the captured state, the error it returns
      (None for nil), and how many messages reached the collector. */
  datatype Outcome<S> = Outcome(state: S, err: Option<string>, consumed: nat)

  predicate Delivered<E>(items: seq<Recv<E>>, k: nat)
  {
    k <= |items| && forall j :: 0 <= j < k ==> items[j].Event?
  }

  /** The loop `for { m, err := Recv(); if err != nil { return err };
      if cont, err := collector(m); !cont { return err } }`. */
  function Fold<S, E>(step: (S, E) -> Verdict<S>, s: S, items: seq<Recv<E>>): (o: Outcome<S>)
    ensures Delivered(items, o.consumed)
  {
    if |items| == 0 then Outcome(s, Some(EOF), 0)
    else match items[0]
      case RecvError(e) => Outcome(s, Some(e), 0)
      case Event(e) =>
        var v := step(s, e);
        if !v.cont then Outcome(v.state, v.err, 1)
        else
          var o := Fold(step, v.state, items[1..]);
          Outcome(o.state, o.err, o.consumed + 1)
  }

  /** Opening the stream, then the receive loop. */
  function Collect<S, E>(step: (S, E) -> Verdict<S>, s: S, stream: Stream<E>): (o: Outcome<S>)
    ensures stream.Refused? ==> o == Outcome(s, Some(stream.err), 0)
    ensures stream.Opened? ==> Delivered(stream.items, o.consumed)
  {
    match stream
    case Refused(e) => Outcome(s, Some(e), 0)
    case Opened(items) => Fold(step, s, items)
  }

  function EventsOf<E>(items: seq<Recv<E>>): (es: seq<E>)
    requires Delivered(items, |items|)
    ensures |es| == |items|
    ensures forall j :: 0 <= j < |items| ==> es[j] == items[j].event
  {
    if |items| == 0 then [] else [items[0].event] + EventsOf(items[1..])
  }

  /** The captured state after the collector has seen these messages. */
  function Feed<S, E>(step: (S, E) -> Verdict<S>, s: S, es: seq<E>): S
  {
    if |es| == 0 then s else Feed(step, step(s, es[0]).state, es[1..])
  }

  /** The collector asked to go on after every one of these messages. */
  predicate Continues<S, E>(step: (S, E) -> Verdict<S>, s: S, es: seq<E>)
  {
    |es| == 0 || (step(s, es[0]).cont && Continues(step, step(s, es[0]).state, es[1..]))
  }

  /** The stream ran out after every message was accepted: io.EOF. */
  ghost predicate Exhausted<S, E>(step: (S, E) -> Verdict<S>, s: S, items: seq<Recv<E>>, o: Outcome<S>)
  {
    && Delivered(items, |items|)
    && o.consumed == |items|
    && Continues(step, s, EventsOf(items))
    && o.state == Feed(step, s, EventsOf(items))
    && o.err == Some(EOF)
  }

  /** Recv failed after every earlier message was accepted: its error. */
  ghost predicate FailedAt<S, E>(step: (S, E) -> Verdict<S>, s: S, items: seq<Recv<E>>, o: Outcome<S>)
  {
    var k := o.consumed;
    && k < |items|
    && Delivered(items, k)
    && items[k].RecvError?
    && Continues(step, s, EventsOf(items[..k]))
    && o.state == Feed(step, s, EventsOf(items[..k]))
    && o.err == Some(items[k].err)
  }

  /** The collector said stop at the last consumed message, after accepting
      every earlier one: the error of that call. */
  ghost predicate StoppedAt<S, E>(step: (S, E) -> Verdict<S>, s: S, items: seq<Recv<E>>, o: Outcome<S>)
  {
    var k := o.consumed;
    && 1 <= k <= |items|
    && Delivered(items, k)
    && Continues(step, s, EventsOf(items[..k - 1]))
    && var v := step(Feed(step, s, EventsOf(items[..k - 1])), items[k - 1].event);
    && !v.cont
    && o.state == v.state
    && o.err == v.err
  }

  lemma EventsOfCons<E>(items: seq<Recv<E>>, k: nat)
    requires 1 <= k && Delivered(items, k)
    ensures EventsOf(items[..k]) == [items[0].event] + EventsOf(items[1..][..k - 1])
  {
    assert items[..k][1..] == items[1..][..k - 1];
  }

  /** Every run of the loop ends in exactly one of three ways, and the
      messages are handed to the collector in stream order. */
  lemma {:induction false} FoldOutcome<S, E>(step: (S, E) -> Verdict<S>, s: S, items: seq<Recv<E>>)
    ensures var o := Fold(step, s, items);
      Exhausted(step, s, items, o) || FailedAt(step, s, items, o) || StoppedAt(step, s, items, o)
  {
    var o := Fold(step, s, items);
    if |items| == 0 {
      assert Exhausted(step, s, items, o);
    } else if items[0].RecvError? {
      assert items[..0] == [];
      assert FailedAt(step, s, items, o);
    } else {
      var e := items[0].event;
      var v := step(s, e);
      if !v.cont {
        assert items[..0] == [];
        assert StoppedAt(step, s, items, o);
      } else {
        var rest := items[1..];
        var r := Fold(step, v.state, rest);
        FoldOutcome(step, v.state, rest);
        assert o == Outcome(r.state, r.err, r.consumed + 1);
        if Exhausted(step, v.state, rest, r) {
          ExhaustedCons(step, s, items, r);
        } else if FailedAt(step, v.state, rest, r) {
          FailedAtCons(step, s, items, r);
        } else {
          StoppedAtCons(step, s, items, r);
        }
      }
    }
  }

  /** The three ends, carried from the rest of the stream to the whole of
      it when the first message was accepted. */
  lemma ExhaustedCons<S, E>(step: (S, E) -> Verdict<S>, s: S, items: seq<Recv<E>>, r: Outcome<S>)
    requires |items| > 0 && items[0].Event? && step(s, items[0].event).cont
    requires Exhausted(step, step(s, items[0].event).state, items[1..], r)
    ensures Exhausted(step, s, items, Outcome(r.state, r.err, r.consumed + 1))
  {
    assert items == items[..|items|];
    EventsOfCons(items, |items|);
    assert items[1..][..|items| - 1] == items[1..];
  }

  lemma FailedAtCons<S, E>(step: (S, E) -> Verdict<S>, s: S, items: seq<Recv<E>>, r: Outcome<S>)
    requires |items| > 0 && items[0].Event? && step(s, items[0].event).cont
    requires FailedAt(step, step(s, items[0].event).state, items[1..], r)
    ensures FailedAt(step, s, items, Outcome(r.state, r.err, r.consumed + 1))
  {
    EventsOfCons(items, r.consumed + 1);
  }

  lemma StoppedAtCons<S, E>(step: (S, E) -> Verdict<S>, s: S, items: seq<Recv<E>>, r: Outcome<S>)
    requires |items| > 0 && items[0].Event? && step(s, items[0].event).cont
    requires StoppedAt(step, step(s, items[0].event).state, items[1..], r)
    ensures StoppedAt(step, s, items, Outcome(r.state, r.err, r.consumed + 1))
  {
    EventsOfCons(items, r.consumed + 1);
    EventsOfCons(items, r.consumed);
  }

  /** collectLayers' goroutine: open the stream, then Recv and hand each
      message to the collector until Recv fails or the collector says stop. */
  method Receive<S, E>(step: (S, E) -> Verdict<S>, s: S, stream: Stream<E>) returns (o: Outcome<S>)
    ensures o == Collect(step, s, stream)
  {
    if stream.Refused? {
      return Outcome(s, Some(stream.err), 0);
    }
    var items := stream.items;
    var state := s;
    var k := 0;
    while true
      invariant k <= |items|
      invariant Fold(step, s, items)
        == var r := Fold(step, state, items[k..]); Outcome(r.state, r.err, r.consumed + k)
      decreases |items| - k
    {
      if k == |items| {
        return Outcome(state, Some(EOF), k);
      }
      match items[k]
      case RecvError(e) =>
        return Outcome(state, Some(e), k);
      case Event(e) =>
        var v := step(state, e);
        if !v.cont {
          return Outcome(v.state, v.err, k + 1);
        }
        assert items[k..][1..] == items[k + 1..];
        state := v.state;
      k := k + 1;
    }
  }
}
