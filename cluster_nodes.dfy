/** cluster/nodes.go: node endpoints, deployment flags and the smesher
    command line, the poet arguments, waiting for pods, and resolving the
    replicas of a stateful set one ordinal at a time with ten attempts each.
    The Kubernetes apply calls are oracles that fail with an error or not. */
module ClusterNodes {
  import opened Prelude
  import opened PodReadiness

  datatype Node = Node(name: string, ip: string, p2p: Uint16, grpc: Uint16, id: string)
  {
    /** GRPCEndpoint: the IP, a colon, and the decimal gRPC port, which reads
        back as the port. */
    function GRPCEndpoint(): (s: string)
      ensures |s| > |ip| && s[..|ip|] == ip && s[|ip|] == ':'
      ensures AllDigits(s[|ip| + 1..]) && ParseInt(s[|ip| + 1..]) == grpc
    {
      var s := ip + ":" + Itoa(grpc);
      assert s[|ip| + 1..] == Itoa(grpc);
      ItoaRoundTrip(grpc);
      s
    }

    /** P2PEndpoint: the multiaddress /ip4/IP/tcp/PORT/p2p/ID. */
    function P2PEndpoint(): string
    {
      "/ip4/" + ip + "/tcp/" + Itoa(p2p) + "/p2p/" + id
    }
  }

  /** The multiaddress is its seven components joined with '/'. */
  lemma P2PEndpointJoin(ip: string, port: string, id: string)
    ensures Join(["", "ip4", ip, "tcp", port, "p2p", id], "/")
      == "/ip4/" + ip + "/tcp/" + port + "/p2p/" + id
  {
    var j6 := Join(["p2p", id], "/");
    assert j6 == "p2p" + "/" + id by {
      assert ["p2p", id][1..] == [id];
      assert Join([id], "/") == id;
    }
    var j5 := Join([port, "p2p", id], "/");
    assert j5 == port + "/" + j6 by {
      assert [port, "p2p", id][1..] == ["p2p", id];
    }
    var j4 := Join(["tcp", port, "p2p", id], "/");
    assert j4 == "tcp" + "/" + j5 by {
      assert ["tcp", port, "p2p", id][1..] == [port, "p2p", id];
    }
    var j3 := Join([ip, "tcp", port, "p2p", id], "/");
    assert j3 == ip + "/" + j4 by {
      assert [ip, "tcp", port, "p2p", id][1..] == ["tcp", port, "p2p", id];
    }
    var j2 := Join(["ip4", ip, "tcp", port, "p2p", id], "/");
    assert j2 == "ip4" + "/" + j3 by {
      assert ["ip4", ip, "tcp", port, "p2p", id][1..] == [ip, "tcp", port, "p2p", id];
    }
    assert Join(["", "ip4", ip, "tcp", port, "p2p", id], "/") == "" + "/" + j2 by {
      assert ["", "ip4", ip, "tcp", port, "p2p", id][1..] == ["ip4", ip, "tcp", port, "p2p", id];
    }
    P2PEndpointNested(ip, port, id);
  }

  /** Regrouping the multiaddress from the right. */
  lemma P2PEndpointNested(ip: string, port: string, id: string)
    ensures "/ip4/" + ip + "/tcp/" + port + "/p2p/" + id
      == "" + "/" + ("ip4" + "/" + (ip + "/" + ("tcp" + "/" + (port + "/" + ("p2p" + "/" + id)))))
  {
  }

  /** The multiaddress splits on '/' into its components, the port reading
      back as the number, when the IP and the identity hold no '/'. */
  lemma P2PEndpointFields(n: Node)
    requires '/' !in n.ip && '/' !in n.id
    ensures Split(n.P2PEndpoint(), '/') == ["", "ip4", n.ip, "tcp", Itoa(n.p2p), "p2p", n.id]
    ensures ParseInt(Split(n.P2PEndpoint(), '/')[4]) == n.p2p
  {
    var d := Itoa(n.p2p);
    var parts := ["", "ip4", n.ip, "tcp", d, "p2p", n.id];
    P2PEndpointJoin(n.ip, d, n.id);
    assert '/' !in d by {
      assert AllDigits(d);
    }
    assert forall i :: 0 <= i < |parts| ==> '/' !in parts[i] by {
      assert parts[0] == "" && parts[1] == "ip4" && parts[2] == n.ip && parts[3] == "tcp";
      assert parts[4] == d && parts[5] == "p2p" && parts[6] == n.id;
    }
    SplitJoin(parts, '/');
    ItoaRoundTrip(n.p2p);
  }

  // ---------------------------------------------------------------------
  // Deployment flags
  // ---------------------------------------------------------------------

  datatype DeploymentFlag = DeploymentFlag(name: string, value: string)
  {
    /** Flag: NAME=VALUE, which splits back on its first '='. */
    function Flag(): (s: string)
      ensures |s| == |name| + 1 + |value|
      ensures '=' !in name ==> CutFirst(s, '=') == Some((name, value))
    {
      var s := name + "=" + value;
      if '=' in name then s else CutFirstOf(name, '=', value); s
    }
  }

  /** RerunInterval: the interval as Duration.String formats it. */
  function RerunInterval(formatted: string): (f: DeploymentFlag)
    ensures f.Flag() == "--tortoise-rerun-interval=" + formatted
  {
    DeploymentFlag("--tortoise-rerun-interval", formatted)
  }

  function PoetEndpoint(endpoint: string): (f: DeploymentFlag)
    ensures f.Flag() == "--poet-server=" + endpoint
  {
    DeploymentFlag("--poet-server", endpoint)
  }

  /** NetworkID: the id in decimal, which reads back as the id. */
  function NetworkID(id: Uint32): (f: DeploymentFlag)
    ensures f.name == "--network-id"
    ensures AllDigits(f.value) && ParseInt(f.value) == id
  {
    ItoaRoundTrip(id);
    DeploymentFlag("--network-id", Itoa(id))
  }

  /** TargetOutbound: the target in decimal, a '-' first when negative. */
  function TargetOutbound(target: int): (f: DeploymentFlag)
    ensures f.name == "--target-outbound"
    ensures target >= 0 ==> AllDigits(f.value)
    ensures target < 0 ==> 1 <= |f.value| && f.value[0] == '-' && AllDigits(f.value[1..])
    ensures ParseInt(f.value) == target
  {
    ItoaRoundTrip(target);
    DeploymentFlag("--target-outbound", Itoa(target))
  }

  /** GenesisTime: the time as RFC 3339 text. */
  function GenesisTime(formatted: string): (f: DeploymentFlag)
    ensures f.Flag() == "--genesis-time=" + formatted
  {
    DeploymentFlag("--genesis-time", formatted)
  }

  /** Bootnodes: the endpoints joined with ','; none gives an empty value. */
  function Bootnodes(bootnodes: seq<string>): (f: DeploymentFlag)
    ensures f.name == "--bootnodes"
    ensures |bootnodes| == 0 ==> f.value == ""
    ensures |bootnodes| > 0 && (forall i :: 0 <= i < |bootnodes| ==> ',' !in bootnodes[i])
      ==> Split(f.value, ',') == bootnodes
  {
    var v := Join(bootnodes, ",");
    if |bootnodes| > 0 && (forall i :: 0 <= i < |bootnodes| ==> ',' !in bootnodes[i]) then
      SplitJoin(bootnodes, ',');
      DeploymentFlag("--bootnodes", v)
    else
      DeploymentFlag("--bootnodes", v)
  }

  /** One account as Accounts prints it: NAME=BALANCE. */
  function AccountPart(name: string, balance: Uint64): string
  {
    name + "=" + Itoa(balance)
  }

  /** The parts Accounts prints, in the order the map is visited. */
  function AccountParts(accounts: map<string, Uint64>, order: seq<string>): (parts: seq<string>)
    requires forall i :: 0 <= i < |order| ==> order[i] in accounts
    ensures |parts| == |order|
    ensures forall i :: 0 <= i < |order| ==> parts[i] == AccountPart(order[i], accounts[order[i]])
  {
    seq(|order|, i requires 0 <= i < |order| => AccountPart(order[i], accounts[order[i]]))
  }

  /** Accounts: one NAME=BALANCE part per entry, in map iteration order
      (`order`), joined with ','. */
  method Accounts(accounts: map<string, Uint64>, order: seq<string>) returns (f: DeploymentFlag)
    requires IsIterationOrder(order, accounts)
    ensures f.name == "--accounts"
    ensures f.value == Join(AccountParts(accounts, order), ",")
  {
    var parts: seq<string> := [];
    for i := 0 to |order|
      invariant |parts| == i
      invariant forall k :: 0 <= k < i ==> parts[k] == AccountPart(order[k], accounts[order[k]])
    {
      parts := parts + [AccountPart(order[i], accounts[order[i]])];
    }
    assert parts == AccountParts(accounts, order);
    f := DeploymentFlag("--accounts", Join(parts, ","));
  }

  /** One part splits on its first '=' into the name and the balance text. */
  lemma AccountPartReadBack(name: string, balance: Uint64)
    requires ',' !in name && '=' !in name
    ensures ',' !in AccountPart(name, balance)
    ensures CutFirst(AccountPart(name, balance), '=') == Some((name, Itoa(balance)))
    ensures ParseInt(Itoa(balance)) == balance
  {
    var d := Itoa(balance);
    assert ',' !in d by {
      assert AllDigits(d);
    }
    CutFirstOf(name, '=', d);
    ItoaRoundTrip(balance);
  }

  /** The accounts value splits back on ',' into one part per account, in
      iteration order, and each part on its first '=' into the account's
      name and its balance in decimal. */
  lemma AccountsReadBack(accounts: map<string, Uint64>, order: seq<string>)
    requires IsIterationOrder(order, accounts) && |accounts| > 0
    requires forall name :: name in accounts ==> ',' !in name && '=' !in name
    ensures |order| == |accounts|
    ensures Split(Join(AccountParts(accounts, order), ","), ',') == AccountParts(accounts, order)
    ensures forall i :: 0 <= i < |order| ==>
      CutFirst(AccountParts(accounts, order)[i], '=') == Some((order[i], Itoa(accounts[order[i]])))
  {
    IterationOrderLength(order, accounts);
    var parts := AccountParts(accounts, order);
    forall i | 0 <= i < |parts|
      ensures ',' !in parts[i]
      ensures CutFirst(parts[i], '=') == Some((order[i], Itoa(accounts[order[i]])))
    {
      AccountPartReadBack(order[i], accounts[order[i]]);
    }
    SplitJoin(parts, ',');
  }

  // ---------------------------------------------------------------------
  // Command lines
  // ---------------------------------------------------------------------

  /** The fixed start of every smesher command. */
  const BaseCommand: seq<string> := [
    "/bin/go-spacemesh",
    "--preset=fastnet",
    "--smeshing-start=true",
    "--smeshing-opts-datadir=/data/post",
    "-d=/data/state",
    "--log-encoder=json"
  ]

  /** deployNodes' command: the fixed arguments, then each flag's text in
      the order given. */
  method Command(flags: seq<DeploymentFlag>) returns (cmd: seq<string>)
    ensures |cmd| == |BaseCommand| + |flags|
    ensures cmd[..|BaseCommand|] == BaseCommand
    ensures forall i :: 0 <= i < |flags| ==> cmd[|BaseCommand| + i] == flags[i].Flag()
  {
    cmd := BaseCommand;
    for i := 0 to |flags|
      invariant |cmd| == |BaseCommand| + i
      invariant cmd[..|BaseCommand|] == BaseCommand
      invariant forall j :: 0 <= j < i ==> cmd[|BaseCommand| + j] == flags[j].Flag()
    {
      cmd := cmd + [flags[i].Flag()];
    }
  }

  /** deployPoet's arguments: one --gateway per gateway in order, then the
      REST listener on the poet port, the round duration and n. */
  method PoetArgs(gateways: seq<string>, poetPort: int) returns (args: seq<string>)
    ensures |args| == |gateways| + 3
    ensures forall i :: 0 <= i < |gateways| ==> args[i] == "--gateway=" + gateways[i]
    ensures args[|gateways|..] == ["--restlisten=0.0.0.0:" + Itoa(poetPort), "--duration=30s", "--n=10"]
  {
    args := [];
    for i := 0 to |gateways|
      invariant |args| == i
      invariant forall j :: 0 <= j < i ==> args[j] == "--gateway=" + gateways[j]
    {
      args := args + ["--gateway=" + gateways[i]];
    }
    args := args + ["--restlisten=0.0.0.0:" + Itoa(poetPort), "--duration=30s", "--n=10"];
  }

  // ---------------------------------------------------------------------
  // Waiting and resolving
  // ---------------------------------------------------------------------

  /** waitPod: checks the context, reads the pod, returns on Running,
      fails on Failed, and polls again on any other phase. */
  method WaitPod(name: string, probes: seq<Probe>) returns (r: Result<Pod>)
    ensures r == PollPod(name, probes)
  {
    var k := 0;
    while true
      invariant 0 <= k <= |probes|
      invariant PollPod(name, probes[k..]) == PollPod(name, probes)
      decreases |probes| - k
    {
      if k == |probes| {
        return Err(DeadlineExceeded);
      }
      match probes[k]
      case Done(e) =>
        return Err(e);
      case GetFailed(e) =>
        return Err(ReadPodError(name, e));
      case Observed(phase, ip) =>
        if phase == Failed {
          return Err(PodFailedError(name));
        } else if phase == Running {
          return Ok(Pod(ip));
        }
      assert probes[k..][1..] == probes[k + 1..];
      k := k + 1;
    }
  }

  /** deployPoet: the poet pod and its service are applied, the pod is
      waited for, and the service name with the poet port is returned.
      `poetPort` and `poetSvc` are package constants not part of this model. */
  method DeployPoet(gateways: seq<string>, poetPort: int, poetSvc: string,
                    podApply: Option<string>, svcApply: Option<string>, probes: seq<Probe>)
    returns (endpoint: string, err: Option<string>, args: seq<string>)
    ensures |args| == |gateways| + 3
    ensures forall i :: 0 <= i < |gateways| ==> args[i] == "--gateway=" + gateways[i]
    ensures args[|gateways|..] == ["--restlisten=0.0.0.0:" + Itoa(poetPort), "--duration=30s", "--n=10"]
    ensures podApply.Some? ==> endpoint == "" && err == Some("create poet: " + podApply.value)
    ensures podApply.None? && svcApply.Some? ==> endpoint == "" && err == Some("apply poet service: " + svcApply.value)
    ensures podApply.None? && svcApply.None? ==>
      match PollPod("poet", probes)
      case Err(e) => endpoint == "" && err == Some(e)
      case Ok(_) => endpoint == poetSvc + ":" + Itoa(poetPort) && err == None
  {
    args := PoetArgs(gateways, poetPort);
    if podApply.Some? {
      return "", Some("create poet: " + podApply.value), args;
    }
    if svcApply.Some? {
      return "", Some("apply poet service: " + svcApply.value), args;
    }
    var pod := WaitPod("poet", probes);
    if pod.Err? {
      return "", Some(pod.error), args;
    }
    endpoint, err := poetSvc + ":" + Itoa(poetPort), None;
  }

  /** The node a successful attempt builds: the pod name and IP, the fixed
      ports, and the identity NetworkInfo reported. */
  function NodeOf(name: string, r: Result<Resolved>): (n: Result<Node>)
    ensures n.Ok? <==> r.Ok?
    ensures r.Err? ==> n == Err(r.error)
    ensures r.Ok? ==>
      && n.value.name == name && n.value.ip == r.value.podIP && n.value.id == r.value.id
      && n.value.p2p == P2PPort && n.value.grpc == GRPCPort
  {
    match r
    case Err(e) => Err(e)
    case Ok(res) => Ok(Node(name, res.podIP, P2PPort, GRPCPort, res.id))
  }

  /** waitSmesher's attempt: wait for the pod, dial its gRPC endpoint, ask
      NetworkInfo; the identity is set only once that answered. */
  method Attempt(name: string, env: AttemptEnv) returns (r: Result<Node>)
    ensures r == NodeOf(name, Resolve(name, env))
  {
    var pod := WaitPod(name, env.probes);
    if pod.Err? {
      return Err(pod.error);
    }
    var node := Node(name, pod.value.podIP, P2PPort, GRPCPort, "");
    var dialed := env.dial(node.GRPCEndpoint());
    assert node.GRPCEndpoint() == GRPCTarget(pod.value.podIP);
    if dialed.Some? {
      return Err(dialed.value);
    }
    match env.info
    case Err(e) =>
      return Err(e);
    case Ok(id) =>
      node := node.(id := id);
      return Ok(node);
  }

  /** waitSmesher: attempts 1..10, returning the first success; after ten
      failures, the tenth error. `made` is the number of attempts made. */
  method WaitSmesher(name: string, attempts: nat -> AttemptEnv) returns (nc: Result<Node>, made: nat)
    ensures nc == NodeOf(name, Retry(name, attempts))
    ensures made == Made(name, attempts)
  {
    var i := 1;
    while true
      invariant 1 <= i <= MaxAttempts
      invariant RetryFrom(name, attempts, i) == Retry(name, attempts)
      invariant MadeFrom(name, attempts, i) == Made(name, attempts)
      decreases MaxAttempts - i
    {
      var r := Attempt(name, attempts(i));
      if r.Err? && i == MaxAttempts {
        return Err(r.error), i;
      } else if r.Ok? {
        return r, i;
      }
      i := i + 1;
    }
  }

  /** The attempts waitSmesher makes: between one and ten, every one before
      the last failed, the result is the last one's, and an error comes only
      after ten failures. */
  lemma WaitSmesherAttempts(name: string, attempts: nat -> AttemptEnv)
    ensures 1 <= Made(name, attempts) <= MaxAttempts
    ensures forall j :: 1 <= j < Made(name, attempts) ==> Resolve(name, attempts(j)).Err?
    ensures NodeOf(name, Retry(name, attempts)) == NodeOf(name, Resolve(name, attempts(Made(name, attempts))))
    ensures Retry(name, attempts).Err? ==> Made(name, attempts) == MaxAttempts
  {
    MadeFromCounts(name, attempts, 1);
  }

  /** The name of the pod with ordinal i of a stateful set. */
  function PodName(statefulSet: string, i: nat): string
  {
    statefulSet + "-" + Itoa(i)
  }

  /** Ordinals from..count-1 resolved in order; the first failure is the result. */
  function ResolveOrdinals(statefulSet: string, attempts: nat -> nat -> AttemptEnv, from: nat, count: nat): Result<seq<Node>>
    decreases count - from
  {
    if from >= count then Ok([])
    else
      match NodeOf(PodName(statefulSet, from), Retry(PodName(statefulSet, from), attempts(from)))
      case Err(e) => Err(e)
      case Ok(n) =>
        match ResolveOrdinals(statefulSet, attempts, from + 1, count)
        case Err(e) => Err(e)
        case Ok(ns) => Ok([n] + ns)
  }

  /** The nodes already resolved, in front of the rest. */
  function Prepend(nodes: seq<Node>, r: Result<seq<Node>>): Result<seq<Node>>
  {
    match r
    case Err(e) => Err(e)
    case Ok(ns) => Ok(nodes + ns)
  }

  lemma PrependNothing(r: Result<seq<Node>>)
    ensures Prepend([], r) == r
  {
    if r.Ok? {
      assert [] + r.value == r.value;
    }
  }

  /** Resolving ordinal i first: a failure is the result, a node goes in
      front of the nodes of the later ordinals. */
  lemma ResolveOrdinalsStep(statefulSet: string, attempts: nat -> nat -> AttemptEnv, i: nat, count: nat, nodes: seq<Node>)
    requires i < count
    ensures var r := NodeOf(PodName(statefulSet, i), Retry(PodName(statefulSet, i), attempts(i)));
      && (r.Err? ==> Prepend(nodes, ResolveOrdinals(statefulSet, attempts, i, count)) == Err(r.error))
      && (r.Ok? ==> Prepend(nodes, ResolveOrdinals(statefulSet, attempts, i, count))
                    == Prepend(nodes + [r.value], ResolveOrdinals(statefulSet, attempts, i + 1, count)))
  {
    var r := NodeOf(PodName(statefulSet, i), Retry(PodName(statefulSet, i), attempts(i)));
    if r.Ok? {
      var rest := ResolveOrdinals(statefulSet, attempts, i + 1, count);
      if rest.Ok? {
        assert nodes + ([r.value] + rest.value) == (nodes + [r.value]) + rest.value;
      }
    }
  }

  /** The node of ordinal i: its pod's name, the fixed ports, and the
      address and identity that ordinal's retry resolved. */
  ghost predicate OrdinalNode(statefulSet: string, attempts: nat -> nat -> AttemptEnv, i: nat, n: Node)
  {
    && n.name == PodName(statefulSet, i)
    && n.p2p == P2PPort && n.grpc == GRPCPort
    && Retry(PodName(statefulSet, i), attempts(i)) == Ok(Resolved(n.ip, n.id))
  }

  /** On success there is one node per ordinal, in ordinal order, each with
      its pod name, the fixed ports and a resolved identity. */
  lemma {:induction false} ResolveOrdinalsNodes(statefulSet: string, attempts: nat -> nat -> AttemptEnv, from: nat, count: nat)
    requires from <= count && ResolveOrdinals(statefulSet, attempts, from, count).Ok?
    ensures var ns := ResolveOrdinals(statefulSet, attempts, from, count).value;
      && |ns| == count - from
      && forall i :: 0 <= i < |ns| ==> OrdinalNode(statefulSet, attempts, from + i, ns[i])
    decreases count - from
  {
    if from < count {
      ResolveFirst(statefulSet, attempts, from, count);
      ResolveOrdinalsNodes(statefulSet, attempts, from + 1, count);
      var ns := ResolveOrdinals(statefulSet, attempts, from, count).value;
      var later := ResolveOrdinals(statefulSet, attempts, from + 1, count).value;
      forall i | 0 < i < |ns|
        ensures OrdinalNode(statefulSet, attempts, from + i, ns[i])
      {
        assert ns[i] == later[i - 1];
      }
    }
  }

  /** A successful resolution from ordinal `from` is that ordinal's node in
      front of the successful resolution of the later ones. */
  lemma ResolveFirst(statefulSet: string, attempts: nat -> nat -> AttemptEnv, from: nat, count: nat)
    requires from < count && ResolveOrdinals(statefulSet, attempts, from, count).Ok?
    ensures ResolveOrdinals(statefulSet, attempts, from + 1, count).Ok?
    ensures var ns := ResolveOrdinals(statefulSet, attempts, from, count).value;
      && |ns| == 1 + |ResolveOrdinals(statefulSet, attempts, from + 1, count).value|
      && ns[1..] == ResolveOrdinals(statefulSet, attempts, from + 1, count).value
      && OrdinalNode(statefulSet, attempts, from, ns[0])
  {
    var p := PodName(statefulSet, from);
    var n := NodeOf(p, Retry(p, attempts(from)));
    assert n.Ok?;
  }

  /** deployNodes: the headless service and the stateful set are applied,
      then the replicas are resolved in ordinal order; any failure returns
      no nodes and that error. `cmd` is the stateful set's command. */
  method DeployNodes(name: string, replicas: int, flags: seq<DeploymentFlag>,
                     svcApply: Option<string>, ssetApply: Option<string>,
                     attempts: nat -> nat -> AttemptEnv)
    returns (result: Result<seq<Node>>, cmd: seq<string>)
    ensures svcApply.Some? ==> result == Err("apply headless service: " + svcApply.value)
    ensures svcApply.None? ==>
      && |cmd| == |BaseCommand| + |flags| && cmd[..|BaseCommand|] == BaseCommand
      && forall i :: 0 <= i < |flags| ==> cmd[|BaseCommand| + i] == flags[i].Flag()
    ensures svcApply.None? && ssetApply.Some? ==> result == Err("apply statefulset: " + ssetApply.value)
    ensures svcApply.None? && ssetApply.None? ==>
      result == ResolveOrdinals(name, attempts, 0, if replicas > 0 then replicas else 0)
  {
    cmd := [];
    if svcApply.Some? {
      return Err("apply headless service: " + svcApply.value), cmd;
    }
    cmd := Command(flags);
    if ssetApply.Some? {
      return Err("apply statefulset: " + ssetApply.value), cmd;
    }
    var count: nat := if replicas > 0 then replicas else 0;
    var nodes: seq<Node> := [];
    PrependNothing(ResolveOrdinals(name, attempts, 0, count));
    var i := 0;
    while i < count
      invariant 0 <= i <= count
      invariant ResolveOrdinals(name, attempts, 0, count)
        == Prepend(nodes, ResolveOrdinals(name, attempts, i, count))
    {
      var nc, _ := WaitSmesher(PodName(name, i), attempts(i));
      ResolveOrdinalsStep(name, attempts, i, count, nodes);
      if nc.Err? {
        return Err(nc.error), cmd;
      }
      nodes := nodes + [nc.value];
      i := i + 1;
    }
    assert nodes + [] == nodes;
    result := Ok(nodes);
  }
}
