/** Waiting for a pod and resolving a node, as both revisions of the
    cluster package do it: poll the pod until it is Running or Failed, dial
    its gRPC port, ask the node for its network identity, and retry the
    whole attempt up to ten times. The cluster's answers are oracles: a
    finite sequence of polls (when it runs out, the context's deadline has
    fired), and a dial and a NetworkInfo answer per attempt. */
module PodReadiness {
  import opened Prelude

  datatype PodPhase = Pending | Running | Succeeded | Failed | Unknown

  /** One round of the polling loop: the context was already done (with
      ctx.Err()), Get failed, or Get returned the pod in a phase with an IP. */
  datatype Probe = Done(err: string) | GetFailed(err: string) | Observed(phase: PodPhase, podIP: string)

  datatype Pod = Pod(podIP: string)

  const DeadlineExceeded: string := "context deadline exceeded"

  /** The ports every smesher container listens on. */
  const P2PPort: Uint16 := 7513
  const GRPCPort: Uint16 := 9092

  /** The number of attempts waitSmesher and DeployNodes make per pod. */
  const MaxAttempts: nat := 10

  function ReadPodError(name: string, err: string): string
  {
    "read pod " + name + ": " + err
  }

  function PodFailedError(name: string): string
  {
    "pod failed " + name
  }

  /** A round that ends the loop: anything but a pod still Pending,
      Succeeded or Unknown. */
  predicate Ends(p: Probe)
  {
    !p.Observed? || p.phase == Running || p.phase == Failed
  }

  /** What a round that ends the loop returns. */
  function Decide(name: string, p: Probe): Result<Pod>
    requires Ends(p)
  {
    match p
    case Done(e) => Err(e)
    case GetFailed(e) => Err(ReadPodError(name, e))
    case Observed(phase, ip) => if phase == Running then Ok(Pod(ip)) else Err(PodFailedError(name))
  }

  /** waitPod's result over the observed rounds. */
  function PollPod(name: string, probes: seq<Probe>): Result<Pod>
  {
    if |probes| == 0 then Err(DeadlineExceeded)
    else if Ends(probes[0]) then Decide(name, probes[0])
    else PollPod(name, probes[1..])
  }

  /** The result is decided by the first round that ends the loop; every
      earlier round saw a pod that was neither Running nor Failed. */
  lemma {:induction false} PollPodFirstEnd(name: string, probes: seq<Probe>, k: nat)
    requires k < |probes| && Ends(probes[k])
    requires forall j :: 0 <= j < k ==> !Ends(probes[j])
    ensures PollPod(name, probes) == Decide(name, probes[k])
  {
    if k > 0 {
      PollPodFirstEnd(name, probes[1..], k - 1);
    }
  }

  /** Without such a round, the deadline ends the wait. */
  lemma {:induction false} PollPodNoEnd(name: string, probes: seq<Probe>)
    requires forall j :: 0 <= j < |probes| ==> !Ends(probes[j])
    ensures PollPod(name, probes) == Err(DeadlineExceeded)
  {
    if |probes| > 0 {
      PollPodNoEnd(name, probes[1..]);
    }
  }

  /** The pod is returned only if Get reported it Running. */
  lemma {:induction false} PollPodOkIsRunning(name: string, probes: seq<Probe>)
    requires PollPod(name, probes).Ok?
    ensures exists j :: 0 <= j < |probes| && probes[j] == Observed(Running, PollPod(name, probes).value.podIP)
  {
    if !Ends(probes[0]) {
      PollPodOkIsRunning(name, probes[1..]);
      var j :| 0 <= j < |probes[1..]| && probes[1..][j] == Observed(Running, PollPod(name, probes).value.podIP);
      assert probes[j + 1] == probes[1..][j];
    } else {
      assert probes[0] == Observed(Running, PollPod(name, probes).value.podIP);
    }
  }

  /** The cluster's answers during one attempt: the polls, the dial of an
      endpoint (Some error, or None when it connects) and NetworkInfo. */
  datatype AttemptEnv = AttemptEnv(probes: seq<Probe>, dial: string -> Option<string>, info: Result<string>)

  /** A resolved node: its pod IP and its network identity. */
  datatype Resolved = Resolved(podIP: string, id: string)

  function GRPCTarget(podIP: string): string
  {
    podIP + ":" + Itoa(GRPCPort)
  }

  /** One attempt: wait for the pod, dial its gRPC port, ask NetworkInfo;
      the identity is known only once NetworkInfo answered. */
  function Resolve(name: string, env: AttemptEnv): Result<Resolved>
  {
    match PollPod(name, env.probes)
    case Err(e) => Err(e)
    case Ok(pod) =>
      var dialed := env.dial(GRPCTarget(pod.podIP));
      if dialed.Some? then Err(dialed.value)
      else match env.info
        case Err(e) => Err(e)
        case Ok(id) => Ok(Resolved(pod.podIP, id))
  }

  /** Attempts i, i+1, ..., MaxAttempts: the first success, or the error of
      the last attempt. */
  function RetryFrom(name: string, attempts: nat -> AttemptEnv, i: nat): Result<Resolved>
    requires 1 <= i <= MaxAttempts
    decreases MaxAttempts - i
  {
    var r := Resolve(name, attempts(i));
    if r.Ok? || i == MaxAttempts then r else RetryFrom(name, attempts, i + 1)
  }

  function Retry(name: string, attempts: nat -> AttemptEnv): Result<Resolved>
  {
    RetryFrom(name, attempts, 1)
  }

  /** The number of the attempt that ends the retry loop started at i: the
      first success, or the last attempt. */
  function MadeFrom(name: string, attempts: nat -> AttemptEnv, i: nat): nat
    requires 1 <= i <= MaxAttempts
    decreases MaxAttempts - i
  {
    if Resolve(name, attempts(i)).Ok? || i == MaxAttempts then i else MadeFrom(name, attempts, i + 1)
  }

  function Made(name: string, attempts: nat -> AttemptEnv): nat
  {
    MadeFrom(name, attempts, 1)
  }

  /** The loop ends at an attempt between i and ten; every attempt before it
      failed; the retry's result is that attempt's result, and it is an
      error only when all ten failed. */
  lemma {:induction false} MadeFromCounts(name: string, attempts: nat -> AttemptEnv, i: nat)
    requires 1 <= i <= MaxAttempts
    ensures i <= MadeFrom(name, attempts, i) <= MaxAttempts
    ensures forall j :: i <= j < MadeFrom(name, attempts, i) ==> Resolve(name, attempts(j)).Err?
    ensures RetryFrom(name, attempts, i) == Resolve(name, attempts(MadeFrom(name, attempts, i)))
    ensures RetryFrom(name, attempts, i).Err? ==> MadeFrom(name, attempts, i) == MaxAttempts
    decreases MaxAttempts - i
  {
    if !(Resolve(name, attempts(i)).Ok? || i == MaxAttempts) {
      MadeFromCounts(name, attempts, i + 1);
    }
  }

  /** The index of the first successful attempt from i on, if any. */
  function FirstSuccessFrom(name: string, attempts: nat -> AttemptEnv, i: nat): (k: nat)
    requires 1 <= i <= MaxAttempts + 1
    ensures i <= k <= MaxAttempts + 1
    ensures forall j :: i <= j < k ==> Resolve(name, attempts(j)).Err?
    ensures k <= MaxAttempts ==> Resolve(name, attempts(k)).Ok?
    decreases MaxAttempts + 1 - i
  {
    if i == MaxAttempts + 1 then i
    else if Resolve(name, attempts(i)).Ok? then i
    else FirstSuccessFrom(name, attempts, i + 1)
  }

  /** At most ten attempts: the first success if one of them succeeds,
      otherwise the tenth attempt's error. */
  lemma {:induction false} RetryOutcome(name: string, attempts: nat -> AttemptEnv, i: nat)
    requires 1 <= i <= MaxAttempts
    ensures var k := FirstSuccessFrom(name, attempts, i);
      && (k <= MaxAttempts ==> RetryFrom(name, attempts, i) == Resolve(name, attempts(k)))
      && (k > MaxAttempts ==> RetryFrom(name, attempts, i) == Resolve(name, attempts(MaxAttempts)))
    decreases MaxAttempts - i
  {
    if i < MaxAttempts && Resolve(name, attempts(i)).Err? {
      RetryOutcome(name, attempts, i + 1);
    }
  }
}
