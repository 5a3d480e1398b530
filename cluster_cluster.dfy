/** cluster/cluster.go: the other revision of the cluster package. Its Node,
    endpoints and waitPod are the same as in cluster/nodes.go and are taken
    from ClusterNodes; its poet arguments, its smesher command line and its
    DeployNodes loop (a ten-attempt retry nested in the ordinal loop, the
    attempt appending to the result) are its own. */
module Cluster {
  import opened Prelude
  import opened PodReadiness
  import opened ClusterNodes

  datatype DeployConfig = DeployConfig(name: string, headless: string, image: string, count: Int32)

  /** The smesher settings; the genesis time is given as its RFC 3339 text. */
  datatype SMConfig = SMConfig(bootnodes: seq<string>, genesisTime: string, networkID: Uint32, poetEndpoint: string)

  /** The port the poet's REST listener uses. */
  const PoetPort: int := 80

  /** DeployPoet's arguments: one --gateway per gateway in order, then the
      REST listener on port 80 and n. */
  method PoetArgs(gateways: seq<string>) returns (args: seq<string>)
    ensures |args| == |gateways| + 2
    ensures forall i :: 0 <= i < |gateways| ==> args[i] == "--gateway=" + gateways[i]
    ensures args[|gateways|..] == ["--restlisten=0.0.0.0:80", "--n=19"]
  {
    args := [];
    for i := 0 to |gateways|
      invariant |args| == i
      invariant forall j :: 0 <= j < i ==> args[j] == "--gateway=" + gateways[j]
    {
      args := args + ["--gateway=" + gateways[i]];
    }
    assert Itoa(PoetPort) == "80" by {
      assert NatToDecimal(80) == NatToDecimal(8) + [DigitChar(0)];
    }
    assert "--restlisten=0.0.0.0:" + Itoa(PoetPort) == "--restlisten=0.0.0.0:80";
    args := args + ["--restlisten=0.0.0.0:" + Itoa(PoetPort)];
    args := args + ["--n=19"];
  }

  /** DeployPoet: the poet pod is applied and waited for; its pod IP with
      port 80 is returned. */
  method DeployPoet(gateways: seq<string>, podApply: Option<string>, probes: seq<Probe>)
    returns (endpoint: string, err: Option<string>, args: seq<string>)
    ensures |args| == |gateways| + 2
    ensures forall i :: 0 <= i < |gateways| ==> args[i] == "--gateway=" + gateways[i]
    ensures args[|gateways|..] == ["--restlisten=0.0.0.0:80", "--n=19"]
    ensures podApply.Some? ==> endpoint == "" && err == Some("create poet: " + podApply.value)
    ensures podApply.None? ==>
      match PollPod("poet", probes)
      case Err(e) => endpoint == "" && err == Some(e)
      case Ok(pod) => endpoint == pod.podIP + ":" + Itoa(PoetPort) && err == None
  {
    args := PoetArgs(gateways);
    if podApply.Some? {
      return "", Some("create poet: " + podApply.value), args;
    }
    var waited := WaitPod("poet", probes);
    if waited.Err? {
      return "", Some(waited.error), args;
    }
    endpoint, err := waited.value.podIP + ":" + Itoa(PoetPort), None;
  }

  /** The smesher container's command. */
  function SmesherCommand(sm: SMConfig): seq<string>
  {
    [ "/bin/go-spacemesh",
      "--preset=testnet",
      "--smeshing-start=true",
      "--smeshing-opts-datadir=/data/post",
      "-d=/data/state",
      "--poet-server=" + sm.poetEndpoint,
      "--network-id=" + Itoa(sm.networkID),
      "--genesis-time=" + sm.genesisTime,
      "--bootnodes=" + Join(sm.bootnodes, ","),
      "--target-outbound=2",
      "--test-mode" ]
  }

  /** The command has eleven arguments; the network id and the bootnodes
      read back from theirs, each splitting on its first '=' into the flag
      name and a value that parses back. */
  lemma SmesherCommandReadsBack(sm: SMConfig)
    ensures var cmd := SmesherCommand(sm);
      && |cmd| == 11
      && CutFirst(cmd[6], '=') == Some(("--network-id", Itoa(sm.networkID)))
      && ParseInt(Itoa(sm.networkID)) == sm.networkID
      && CutFirst(cmd[8], '=') == Some(("--bootnodes", Join(sm.bootnodes, ",")))
      && (|sm.bootnodes| > 0 && (forall i :: 0 <= i < |sm.bootnodes| ==> ',' !in sm.bootnodes[i]) ==>
            Split(Join(sm.bootnodes, ","), ',') == sm.bootnodes)
  {
    var cmd := SmesherCommand(sm);
    assert cmd[6] == "--network-id" + ['='] + Itoa(sm.networkID);
    assert cmd[8] == "--bootnodes" + ['='] + Join(sm.bootnodes, ",");
    CutFirstOf("--network-id", '=', Itoa(sm.networkID));
    CutFirstOf("--bootnodes", '=', Join(sm.bootnodes, ","));
    ItoaRoundTrip(sm.networkID);
    if |sm.bootnodes| > 0 && (forall i :: 0 <= i < |sm.bootnodes| ==> ',' !in sm.bootnodes[i]) {
      SplitJoin(sm.bootnodes, ',');
    }
  }

  /** The attempt closure: wait for the pod, dial its gRPC endpoint, ask
      NetworkInfo, and append the node to the result only then. */
  method Attempt(name: string, env: AttemptEnv, result: seq<Node>) returns (result': seq<Node>, err: Option<string>)
    ensures match NodeOf(name, Resolve(name, env))
      case Err(e) => result' == result && err == Some(e)
      case Ok(n) => result' == result + [n] && err == None
  {
    result' := result;
    var pod := WaitPod(name, env.probes);
    if pod.Err? {
      return result', Some(pod.error);
    }
    var node := Node(name, pod.value.podIP, P2PPort, GRPCPort, "");
    var dialed := env.dial(node.GRPCEndpoint());
    assert node.GRPCEndpoint() == GRPCTarget(pod.value.podIP);
    if dialed.Some? {
      return result', Some(dialed.value);
    }
    match env.info
    case Err(e) =>
      return result', Some(e);
    case Ok(id) =>
      node := node.(id := id);
      result' := result' + [node];
      err := None;
  }

  /** The inner loop of DeployNodes: attempts 1..10 for one ordinal,
      stopping at the first success; after the tenth failure, its error. The
      result gains exactly the node of the successful attempt. */
  method RetryAttempt(name: string, envs: nat -> AttemptEnv, result: seq<Node>)
    returns (result': seq<Node>, err: Option<string>)
    ensures var r := NodeOf(name, Retry(name, envs));
      && (r.Err? ==> result' == result && err == Some(r.error))
      && (r.Ok? ==> result' == result + [r.value] && err == None)
  {
    var k := 1;
    while true
      invariant 1 <= k <= MaxAttempts
      invariant RetryFrom(name, envs, k) == Retry(name, envs)
      decreases MaxAttempts - k
    {
      result', err := Attempt(name, envs(k), result);
      if err.Some? && k == MaxAttempts {
        return;
      } else if err.None? {
        return;
      }
      k := k + 1;
    }
  }

  /** DeployNodes' ordinal loop: ordinals 0..count-1 in order, each with
      its retry loop; the first ordinal whose attempts all fail aborts with
      that error and no nodes. */
  method ResolveAll(name: string, count: nat, attempts: nat -> nat -> AttemptEnv) returns (result: Result<seq<Node>>)
    ensures result == ResolveOrdinals(name, attempts, 0, count)
  {
    var nodes: seq<Node> := [];
    PrependNothing(ResolveOrdinals(name, attempts, 0, count));
    var i: nat := 0;
    while i < count
      invariant i <= count
      invariant ResolveOrdinals(name, attempts, 0, count)
        == Prepend(nodes, ResolveOrdinals(name, attempts, i, count))
    {
      ResolveOrdinalsStep(name, attempts, i, count, nodes);
      var err;
      nodes, err := RetryAttempt(PodName(name, i), attempts(i), nodes);
      if err.Some? {
        return Err(err.value);
      }
      i := i + 1;
    }
    assert nodes + [] == nodes;
    result := Ok(nodes);
  }

  /** DeployNodes: the headless service and the stateful set are applied;
      then for each ordinal up to ten attempts run, the loop stopping at the
      first success and the tenth failure aborting the whole call. The
      result is the one ClusterNodes.ResolveOrdinals specifies; `cmd` is the
      stateful set's command. */
  method DeployNodes(cfg: DeployConfig, sm: SMConfig, svcApply: Option<string>, ssetApply: Option<string>,
                     attempts: nat -> nat -> AttemptEnv)
    returns (result: Result<seq<Node>>, cmd: seq<string>)
    ensures cmd == SmesherCommand(sm)
    ensures svcApply.Some? ==> result == Err("apply headless service: " + svcApply.value)
    ensures svcApply.None? && ssetApply.Some? ==> result == Err("apply statefulset: " + ssetApply.value)
    ensures svcApply.None? && ssetApply.None? ==>
      result == ResolveOrdinals(cfg.name, attempts, 0, if cfg.count > 0 then cfg.count as nat else 0)
  {
    cmd := SmesherCommand(sm);
    if svcApply.Some? {
      return Err("apply headless service: " + svcApply.value), cmd;
    }
    if ssetApply.Some? {
      return Err("apply statefulset: " + ssetApply.value), cmd;
    }
    var count: nat := if cfg.count > 0 then cfg.count as nat else 0;
    result := ResolveAll(cfg.name, count, attempts);
  }
}
