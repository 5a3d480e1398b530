# systest, modelled in Dafny

systest deploys a spacemesh cluster on Kubernetes and runs system tests against it. It starts a poet, the bootnodes and the smeshers, then reads every peer's gRPC streams (layers, proposals, rewards) and checks that the peers agree. Chaos can be injected along the way: network partitions and failed nodes.

This project models the sequential logic under that plumbing. It has three parts.

- **Codecs and builders.**
  - the `key=value,…` flag value of the context package (`StringToStringValue`);
  - the fixed 52-byte big-endian transaction layout, in each of its copies;
  - node endpoints, deployment flags, the smesher command line and the poet arguments;
  - `prettyHex`, signer addresses and the genesis accounts.
- **Polling and retries.**
  - `waitPod`;
  - the ten-attempt `waitSmesher` retry and its twin inside `DeployNodes`;
  - resolving a stateful set's replicas one ordinal at a time.
- **Stream collectors and the checks built on them.** The pieces are:
  - `collectLayers`, `collectProposals` and `collectRewards`;
  - every scenario's controller (partition and restore, smesher addition, the nonce-counting senders with their `maxLayer` de-duplication);
  - the final comparisons (hash maps against peer 0, transaction lists, rewards within a tolerance, equal eligibilities, unique smeshers per epoch, included against created counts).

## How the model is organised

The `cluster` and `tests` packages modelled here come from three revisions of the repository. The revisions differ in the cluster interface they use:

- The exported, function-style interface over `clustercontext.Context` (`cluster.DeployPoet`, `cluster.DeployNodes` with `DeployConfig` and `SMConfig`). This is cluster/cluster.go and its caller example/example_test.go.
- The `cluster.New(options…)` object with `AddSmeshers`. This is tests/common.go, tests/example_test.go and the healing, partition, sanity, transactions and smeshing tests.
- The `testcontext.Context` revision. This is cluster/nodes.go, with the unexported `deployPoet`/`deployNodes` and `DeploymentFlag`s, and its caller tests/nodes_test.go (`cluster.New(tctx)`, `cluster.Default`).

context/context.go is the `clustercontext` package that the first two revisions import. Its flag registration at context/context.go:39 calls `stringToString(nodeSelector)`. The context/string_to_string.go modelled here does not define that conversion; its constructor is `newStringToStringValue` (context/string_to_string.go:16), so the conversion belongs to another revision of that file.

As a result, `collectLayers`, `TestSmeshing`, `TestHealing`, `TestTransactions`, `encodeTx` and `defaultTargetOutbound` are each declared more than once, with different bodies. Each source file is modelled in its own module and follows its own revision:

| module | source file |
|---|---|
| `StringToString` | context/string_to_string.go |
| `ClusterNodes`, `PodReadiness` | cluster/nodes.go |
| `Cluster` | cluster/cluster.go |
| `TestsCommon` | tests/common.go |
| `TestsExample` | tests/example_test.go |
| `ExampleTest` | example/example_test.go |
| `Healing` | tests/healing_test.go |
| `Partition` | tests/partition_test.go |
| `Sanity` | tests/sanity_test.go |
| `Transactions` | tests/transactions_test.go |
| `Smeshing` | tests/smeshing_test.go |
| `Nodes` | tests/nodes_test.go |

The shared modules are:

- `Prelude`: fixed-width integers, decimal and hex text, and `strings.Split`/`Join`/`Cut`/`TrimSpace`.
- `TxLayout`: the transaction layout.
- `Mesh`: the API messages the tests read.
- `Testify`: the ways a `require`/`assert` fails.
- `Streams`: streams and collectors.
- `Recording`: what a sequence of map assignments leaves behind.

A peer's gRPC stream is a `Stream`. It is either refused when opened, or a finite sequence of received events that may end in a receive error; running off the end is the stream's EOF.

A collector callback is a step function from the captured state and one event to a `Verdict(state, cont, err)`. `Streams.Fold` and `Streams.Collect` state what `collectLayers` does with it: feed events in order, stop at the first `cont == false` and return that call's error, return a receive error at once, and ignore an error returned with `cont == true`.

Loops the source writes inline are methods whose `while`/`for` loops are proved equal to that specification:

- `Streams.Receive`;
- `Sanity.Send`;
- `Transactions.Send` and `Transactions.Gather`;
- the rewards loop in `Sanity.CollectRewards`.

The controllers' promises are lemmas about the fold, proved by induction over the stream.

External calls become parameters:

- `Partition2`, `teardown` and `AddSmeshers` are an error or none;
- the transaction RPC is a function from payload to reply;
- the ed25519 signature is a function from bytes to bytes;
- the pod phases polled by `waitPod` are a finite sequence of probes;
- each dial and `NetworkInfo` attempt is an oracle entry.

Go map iteration order is an explicit `order` argument that must list the map's keys once each.

## Model

| member | source | states |
|---|---|---|
| StringToString.StringToStringValue.constructor | context/string_to_string.go:16-18 | the value wraps the caller's map object itself, whose entries are unchanged |
| StringToString.StringToStringValue.Set | context/string_to_string.go:21-33 | the caller's map, written in place, and the error are those of applying the `,`-separated pieces in order, each split on its first `=`, with key and value trimmed; `changed` is not touched |
| StringToString.ErrorIffMalformed | context/string_to_string.go:23-27 | Set fails exactly when some piece has no `=`; the error names the first such piece with the "must be formatted as key=value" text |
| StringToString.EmptyInputIsError | context/string_to_string.go:22-27 | the empty input splits into one empty piece, so Set fails and leaves the map as it was |
| StringToString.NoRollback | context/string_to_string.go:23-31 | on an error, the pairs before the malformed piece stay written |
| StringToString.SplitOnFirstEquals | context/string_to_string.go:24-30 | a piece `k=v` stores v under k, and only the first `=` separates (`a=b=c` gives key `a`, value `b=c`) |
| StringToString.LastWriterWins | context/string_to_string.go:28-30 | after a well-formed Set, a key is present iff it was before or some piece names it; the last piece naming it gives its value; keys no piece names keep their old value |
| StringToString.SetThroughWrapper | context/context.go:35-39 | a value set through the flag wrapping a package map is written into that map itself: its entries and the error are those of applying the pieces to its old entries |
| StringToString.StringToStringValue.Type | context/string_to_string.go:36-38 | the type text is `string=string` |
| StringToString.StringToStringValue.String | context/string_to_string.go:41-53 | the text is the `k=v` entries in iteration order joined by `,`, with no trailing comma; it is empty exactly when the map is |
| StringToString.TerminatedJoin | context/string_to_string.go:42-52 | writing each entry followed by `,` and cutting the last byte is the `,`-join of the entries |
| StringToString.EntriesHaveNoComma | context/string_to_string.go:43-47 | entries of a map whose keys and values hold no `,` hold no `,` |
| StringToString.ApplyEntriesFrom | context/string_to_string.go:21-33 | applying the printed entries of given keys onto any map never fails and writes exactly those keys with the printed map's values |
| StringToString.OverwriteAll | context/string_to_string.go:21-33 | writing every key of a map, in its iteration order, onto an empty map rebuilds that map |
| StringToString.SetAfterString | context/string_to_string.go:22-30 | round trip: Set of String of a non-empty printable map, into an empty map, rebuilds the map |
| Prelude.SplitJoin | context/string_to_string.go:22 | splitting a join on a separator that no part holds gives back the parts |
| Prelude.CutFirstOf | context/string_to_string.go:24 | cutting at the first `c` of `a + c + b`, when `a` holds no `c`, gives `a` and `b` |
| Prelude.TrimSpace | context/string_to_string.go:28-29 | the result has no surrounding white space, and an already trimmed text is unchanged |
| Prelude.TrimLeftDrops | context/string_to_string.go:28-29 | trimming the front keeps a suffix and drops only white space |
| Prelude.TrimRightDrops | context/string_to_string.go:28-29 | trimming the back keeps a prefix and drops only white space |
| Prelude.TrimSpaceMeaning | context/string_to_string.go:28-29 | the result is a middle part of the input with only white space before and after it |
| Prelude.ItoaRoundTrip | cluster/nodes.go:267 | strconv.Itoa reads back as the same integer |
| Prelude.UnhexHex | example/example_test.go:117 | hex.EncodeToString decodes back to the bytes |
| TxLayout.Encode | tests/common.go:23-35 | the encoding is exactly 52 bytes |
| TxLayout.EncodeLayout | tests/common.go:25-33 | nonce at [0,8), recipient at [8,28), gas limit at [28,36), fee at [36,44), amount at [44,52), each number big-endian |
| TxLayout.BigEndianRoundTrip | tests/common.go:25 | an eight-byte big-endian write of a 64-bit value reads back as the value |
| TxLayout.DecodeEncode | tests/common.go:23-35 | decoding the layout recovers the transaction |
| TxLayout.EncodeInjective | tests/common.go:23-35 | different transactions encode differently |
| TxLayout.PutUint64 | tests/common.go:25 | binary.BigEndian.PutUint64 leaves the eight bytes of the value, most significant first, in the array |
| TxLayout.Signed | tests/common.go:41-42 | the payload is the encoding followed by the signature over exactly those bytes |
| TestsCommon.EncodeTx | tests/common.go:23-35 | the appends build the 52-byte layout, which decodes back to the transaction |
| TestsCommon.SubmitTransaction | tests/common.go:37-51 | the payload is the signed encoding; an RPC error is returned as is, a nil TxState gives "tx state should not be nil", and the result is nil exactly when the reply has a TxState |
| TestsCommon.ExtractNames | tests/common.go:53-59 | one name per node, in argument order |
| TestsCommon.DefaultTargetOutbound | tests/common.go:61-66 | 3 below ten nodes; from ten on, at least 3 and the integer part of three tenths of the size |
| TestsExample.EncodeTx | tests/example_test.go:69-81 | the appends build the 52-byte layout, which decodes back to the transaction |
| TestsExample.SubmitTransaction | tests/example_test.go:83-92 | the payload is the signed encoding; an RPC error fails the test through require.NoError, a nil TxState through require.NotNil with "tx state is nil", and nothing fails exactly when the reply has a TxState |
| TestsExample.ExtractNames | tests/example_test.go:94-100 | one name per node, in argument order |
| ExampleTest.Address | example/example_test.go:116-119 | `0x` and 40 lower-case hex digits, which decode to the public key from byte 12 on |
| ExampleTest.AddressIdentifiesKeyTail | example/example_test.go:116-119 | two signers have the same address iff their keys agree from byte 12 on |
| ExampleTest.GenGenesis | example/example_test.go:103-109 | the accounts are exactly the signers' addresses, each with 100000000000000000 |
| ExampleTest.GenesisHasOneAccountPerSigner | example/example_test.go:103-109 | signers whose key tails differ give one account each |
| ExampleTest.GenSigners | example/example_test.go:121-132 | on success, exactly n signers, each the key generator's output in order; the first generation error fails the test after fewer than n |
| ExampleTest.GetNames | example/example_test.go:134-140 | one name per node, in argument order |
| ExampleTest.EncodeTx | example/example_test.go:150-162 | the appends build the 52-byte layout, which decodes back to the transaction |
| ExampleTest.SubmitTransaction | example/example_test.go:164-173 | the payload is the encoding followed by the signature with the signer's private key; an RPC error or a nil TxState fails the test, and nothing fails exactly when the reply has a TxState |
| ClusterNodes.Node.GRPCEndpoint | cluster/nodes.go:32-35 | the IP, a colon, then decimal digits that read back as the gRPC port |
| ClusterNodes.P2PEndpointJoin | cluster/nodes.go:37-40 | the multiaddress is its seven components joined with `/` |
| ClusterNodes.P2PEndpointFields | cluster/nodes.go:37-40 | the multiaddress splits on `/` into ip4, the IP, tcp, the port (reading back as the P2P port), p2p and the identity |
| ClusterNodes.DeploymentFlag.Flag | cluster/nodes.go:254-256 | the flag is name, `=`, value, and cuts back at its first `=` into name and value |
| ClusterNodes.RerunInterval | cluster/nodes.go:258-260 | `--tortoise-rerun-interval=` followed by the formatted duration |
| ClusterNodes.PoetEndpoint | cluster/nodes.go:262-264 | `--poet-server=` followed by the endpoint |
| ClusterNodes.NetworkID | cluster/nodes.go:266-268 | `--network-id` with decimal digits that read back as the id |
| ClusterNodes.TargetOutbound | cluster/nodes.go:270-272 | `--target-outbound` with decimal digits, after a `-` when the target is negative, that read back as the target |
| ClusterNodes.GenesisTime | cluster/nodes.go:274-276 | `--genesis-time=` followed by the formatted time |
| ClusterNodes.Bootnodes | cluster/nodes.go:278-280 | `--bootnodes`; no bootnodes give the empty value, and bootnodes without `,` split back out of the value |
| ClusterNodes.AccountParts | cluster/nodes.go:283-286 | one `name=balance` part per account, in iteration order |
| ClusterNodes.Accounts | cluster/nodes.go:282-288 | `--accounts` with the parts joined by `,` |
| ClusterNodes.AccountPartReadBack | cluster/nodes.go:285 | a part holds no `,` and cuts at its first `=` into the name and the decimal balance, which reads back |
| ClusterNodes.AccountsReadBack | cluster/nodes.go:282-288 | one part per account; the value splits back into the parts, each naming its account and balance |
| ClusterNodes.Command | cluster/nodes.go:141-151 | the six fixed arguments, then each flag's text in input order |
| ClusterNodes.PoetArgs | cluster/nodes.go:51-59 | one `--gateway=` per gateway in order, then restlisten on the poet port, `--duration=30s` and `--n=10` |
| ClusterNodes.WaitPod | cluster/nodes.go:103-121 | the polling loop returns what the probe sequence decides |
| PodReadiness.PollPodFirstEnd | cluster/nodes.go:103-121 | the first probe that ends the wait decides it: cancellation, a read error ("read pod"), Failed ("pod failed"), or Running with the pod |
| PodReadiness.PollPodNoEnd | cluster/nodes.go:104-109 | a wait whose probes never end it runs into the context deadline |
| PodReadiness.PollPodOkIsRunning | cluster/nodes.go:117-118 | a successful wait returns a pod observed Running |
| ClusterNodes.DeployPoet | cluster/nodes.go:50-101 | the arguments as PoetArgs; a pod apply error gives "create poet: …", a service apply error "apply poet service: …", a wait error that error; otherwise the endpoint is service:port |
| ClusterNodes.NodeOf | cluster/nodes.go:216-233 | a node comes out exactly when the attempt resolved; it has the pod name, the pod IP, P2P 7513, gRPC 9092 and the identity from NetworkInfo; a failed attempt passes its error on |
| ClusterNodes.Attempt | cluster/nodes.go:211-238 | one attempt: wait for the pod, dial, ask NetworkInfo, and build the node from the results |
| PodReadiness.FirstSuccessFrom | cluster/nodes.go:239-246 | the first successful attempt number, or 11; every earlier attempt failed |
| PodReadiness.RetryOutcome | cluster/nodes.go:239-247 | the retry returns the first successful attempt, or else the tenth attempt's error |
| ClusterNodes.WaitSmesher | cluster/nodes.go:210-248 | the node built from the retried resolution, and the number of the attempt that ended the loop |
| PodReadiness.MadeFromCounts | cluster/nodes.go:239-247 | the loop ends at an attempt between the start and ten; every attempt before it failed; its result is the retry's; an error only at the tenth |
| ClusterNodes.WaitSmesherAttempts | cluster/nodes.go:210-248 | between one and ten attempts; all before the last failed; the node is the last attempt's; failure means ten were made |
| ClusterNodes.ResolveOrdinalsStep | cluster/nodes.go:200-206 | at ordinal i, a failure ends the loop with that error; a success appends the node and goes on with i + 1 |
| ClusterNodes.ResolveOrdinalsNodes | cluster/nodes.go:199-207 | on success, one node per ordinal, in ordinal order, named `<set>-<i>`, with the fixed ports and the address and identity of that ordinal's retry |
| ClusterNodes.DeployNodes | cluster/nodes.go:123-208 | the service apply error, then the stateful set apply error, are returned with their prefixes; the command is Command's; otherwise the result is the ordinal resolution of max(replicas, 0) pods |
| Cluster.PoetArgs | cluster/cluster.go:77-82 | one `--gateway=` per gateway in order, then `--restlisten=0.0.0.0:80` and `--n=19` |
| Cluster.DeployPoet | cluster/cluster.go:75-101 | the arguments as PoetArgs; a pod apply error gives "create poet: …", a wait error that error; otherwise the endpoint is the pod IP and port 80 |
| Cluster.SmesherCommandReadsBack | cluster/cluster.go:162-174 | eleven arguments; the seventh cuts into `--network-id` and a decimal reading back as the id, the ninth into `--bootnodes` and the `,`-join, which splits back into the bootnodes |
| Cluster.Attempt | cluster/cluster.go:185-215 | a node is appended, once, only when the pod wait, the dial and NetworkInfo all succeed; otherwise the result is unchanged and the error returned |
| Cluster.RetryAttempt | cluster/cluster.go:216-223 | up to ten attempts stop at the first success, which appends its node; the tenth failure gives that error with nothing appended |
| Cluster.ResolveAll | cluster/cluster.go:184-224 | the ordinal loop gives the same result as resolving the ordinals in order, failing on the first ordinal that fails ten times |
| Cluster.DeployNodes | cluster/cluster.go:123-226 | the service and stateful set apply errors come first, with their prefixes; the command is the fixed one; otherwise the ordinal resolution of max(Count, 0) pods |
| Streams.Receive | tests/partition_test.go:92-110 | the receive loop returns what the collector fold specifies: a refused stream's error, the first receive error, or the error of the first call that stops |
| Recording.RecordAllMeaning | tests/healing_test.go:82 | after recording events into a map: the keys are the old ones plus the recorded ones; each key holds the value of its last recording; untouched keys keep their old value |
| Healing.ControllerContinues | tests/healing_test.go:49-66 | the controller goes on exactly while every layer is below 17, and below 12 when Partition2 fails; meanwhile it has partitioned iff some layer reached 12 |
| Healing.ControllerFold | tests/healing_test.go:49-66 | from either state: at most one partition, made once a layer reached 12; teardown called at most once, only after a successful partition, and then ending the run with its error; every layer before the last is below 17 |
| Healing.ControllerOutcome | tests/healing_test.go:47-67 | the same, for peer 0's whole stream from the start |
| Healing.RecordHashContinues | tests/healing_test.go:71-84 | the collector goes on exactly while no layer is 60, and meanwhile has recorded every layer's hash, the last report of a layer winning |
| Healing.RecordHashOutcome | tests/healing_test.go:68-85 | a peer ends without error exactly at layer 60; its map holds the hashes of the layers before the end |
| Partition.NilTeardownPanics | tests/partition_test.go:58-63 | as written, layer 20 without layer 13 before it calls the nil teardown: the goroutine panics without a partition |
| Partition.GuardedControllerFold | tests/partition_test.go:48-65 | the guarded controller: no panic; at most one partition, made at layer 13; teardown at most once, after a successful partition, ending the run with its error; no layer 20 before the last |
| Partition.GuardedControllerOutcome | tests/partition_test.go:43-66 | the same for peer 0's whole stream; a run that stops at layer 20 without a partition ends without error |
| Partition.RecordConfirmedContinues | tests/partition_test.go:70-83 | the collector goes on exactly while no confirmed layer 50 has come; meanwhile it holds the printed hash of every confirmed layer, the last report winning |
| Partition.RecordConfirmedOutcome | tests/partition_test.go:67-84 | a peer ends without error exactly at confirmed layer 50; its map holds the printed hashes of the confirmed layers before the end |
| Partition.CompareWithReference | tests/partition_test.go:86-89 | peer i is reported iff its map differs from peer 0's, in increasing order, naming peer i itself |
| Smeshing.PrettyHex | tests/smeshing_test.go:93-95 | `0x` followed by 2·n lower-case hex digits that decode to the bytes |
| Smeshing.PrettyHexInjective | tests/smeshing_test.go:93-95 | two byte strings print the same iff they are equal |
| Smeshing.CollectProposals | tests/smeshing_test.go:116-133 | the receive loop is the collector fold; it ends without error exactly when the collector rejects a proposal |
| Smeshing.ClassifyContinues | tests/smeshing_test.go:56-64 | the classifier goes on exactly while every layer is at most 15; meanwhile created proposals go to the created list and the others to their layer's included list, in order |
| Smeshing.ClassifyOutcome | tests/smeshing_test.go:44-68 | a peer ends without error exactly at its first proposal past layer 15 |
| Smeshing.GroupByLayer | tests/smeshing_test.go:71-74 | the layers of the map are exactly those of the created proposals, each holding that layer's proposals in order |
| Smeshing.TallyOne | tests/smeshing_test.go:103 | adding one proposal's eligibilities keeps the map equal to the per-smesher sums |
| Smeshing.NotASmesher | tests/smeshing_test.go:100-105 | a smesher with no proposal has no eligibilities |
| Smeshing.AggregateEligibilities | tests/smeshing_test.go:97-105 | the map holds exactly the smeshers with proposals, each with the sum of its eligibility counts |
| Smeshing.CheckEqualEligibilities | tests/smeshing_test.go:106-113 | nothing fails iff all sums are equal (so an empty map passes); a failure names a smesher whose sum differs from the first one seen |
| Smeshing.CheckIncludedLengths | tests/smeshing_test.go:81-90 | nothing fails iff every peer has, for every created layer, as many included proposals as created ones; a failure reports such a pair |
| Sanity.DefaultTargetOutbound | tests/sanity_test.go:26-31 | 2 below ten nodes; from ten on, at least 2 and the integer part of a fifth of the size |
| Sanity.RewardsContinue | tests/sanity_test.go:93-104 | the loop goes on exactly while every reward is at most `upto`; it keeps the address, appends the layers in order and adds the values modulo 2^64 |
| Sanity.PeerRewardsOutcome | tests/sanity_test.go:81-107 | a peer's task succeeds iff its id and stream were obtained and a reward past `upto` arrived; its result is the prefix before it: layers in order and their sum modulo 2^64 |
| Sanity.CollectRewards | tests/sanity_test.go:75-110 | no error iff every peer succeeds, and then one result per peer; an error is some peer's error |
| Sanity.CompareRewardSums | tests/sanity_test.go:62-72 | peer i is reported iff its sum is further from the first one's than the tolerance, in increasing order |
| Sanity.CompareRewardSumsAliased | tests/sanity_test.go:62-72 | as written, the reference is the reused range variable, so nothing is ever reported |
| Sanity.AliasedComparisonMissesDifference | tests/sanity_test.go:64-70 | on sums 0 and 100 with a tolerance of a tenth of the reference, the intended comparison reports exactly peer 1 and the as-written one reports nothing |
| Sanity.HealFold | tests/sanity_test.go:149-177 | every peer's loop keeps its chaos state consistent (only peer 0 partitions; at most one partition and one teardown; teardown only after a partition, then `cleaned`); a failed teardown ends the loop with its error; a partition means a layer reached 12; a clean end is at layer 60, and on peer 0 after the cleanup |
| Sanity.HealHashes | tests/sanity_test.go:149-178 | a clean end holds the hashes of every layer before layer 60, the last report winning |
| Sanity.CompareWithFirst | tests/sanity_test.go:184-191 | peer i is reported iff its map differs from the first one, in increasing order |
| Sanity.BatchFromKeepsOrder | tests/sanity_test.go:245-256 | a batch submits consecutive nonces; it stops at the first rejected submission with that error and otherwise submits all of them |
| Sanity.SendBatch | tests/sanity_test.go:245-256 | the batch loop does what BatchFrom specifies |
| Sanity.Send | tests/sanity_test.go:226-258 | the sender's receive loop is the fold of the sender step over the stream |
| Sanity.SendFold | tests/sanity_test.go:233-257 | the nonces submitted are 0, 1, 2, … in order, each accepted; a clean end is at a layer without status numbered 14, after twenty submissions per earlier layer without status |
| Sanity.GatherContinues | tests/sanity_test.go:273-293 | the receiver goes on exactly while every confirmed layer is not 16 and has one block; meanwhile it has appended each confirmed layer's block transactions |
| Sanity.GatherOutcome | tests/sanity_test.go:265-296 | a receiver ends without error exactly at confirmed layer 16, and then holds the transactions of the confirmed layers before it, each of which had one block |
| Sanity.CompareTransactions | tests/sanity_test.go:300-311 | nothing fails iff there are no lists or the first is non-empty and all are equal; an empty first list fails require.NotEmpty; otherwise a failure is the first length or element mismatch of some peer; the same comparison closes tests/transactions_test.go (lines 130-143), and Transactions uses this member for it |
| Transactions.Send | tests/transactions_test.go:45-88 | the sender's receive loop, with its inline batch, is the fold of the sender step |
| Transactions.SendKeepsOrder | tests/transactions_test.go:69-86 | the submitted nonces are consecutive, extend what was there, and were all accepted |
| Transactions.SendStops | tests/transactions_test.go:59-68 | `maxLayer` never decreases and bounds every confirmed layer handed over; a clean end is at confirmed layer 14 with nothing sent for it, and every earlier confirmed layer is below 14 |
| Transactions.SendCount | tests/transactions_test.go:62-86 | a clean end has submitted five transactions per confirmed layer above the running maximum |
| Transactions.SendOutcome | tests/transactions_test.go:45-88 | from the start: nonces 0 … k·5 − 1 in order, all accepted; a clean end is at confirmed layer 14 with k the number of new maxima before it |
| Transactions.BlockTxs | tests/transactions_test.go:114-117 | a transaction is in the list iff it is in one of the blocks |
| Transactions.GatherBlocks | tests/transactions_test.go:114-117 | the block loop concatenates the blocks' transactions in order |
| Transactions.Gather | tests/transactions_test.go:94-128 | the receiver's loop is the fold of the gather step |
| Transactions.GatherContinues | tests/transactions_test.go:102-125 | the receiver goes on exactly while no confirmed layer 16 has come, and meanwhile has appended the transactions of every confirmed layer |
| Transactions.GatherOutcome | tests/transactions_test.go:94-128 | a receiver ends without error exactly at confirmed layer 16, holding the transactions of the confirmed layers before it |
| Nodes.AddFold | tests/nodes_test.go:43-52 | AddSmeshers is called at most once, exactly when a layer from 11 on is handed over, as the last one; the call's error ends the goroutine |
| Nodes.AddTriggerOutcome | tests/nodes_test.go:41-54 | the same from the start of peer 0's stream: every earlier layer is below 11 |
| Nodes.CreatedContinues | tests/nodes_test.go:60-76 | the collector goes on exactly while every proposal is at most at layer 35, and meanwhile keeps the created ones in order |
| Nodes.CreatedOutcome | tests/nodes_test.go:56-78 | a peer ends without error exactly at a proposal past layer 35; its list is the created proposals before it |
| Nodes.UniqueOfMeaning | tests/nodes_test.go:79-87 | the map has an entry for exactly the epochs with proposals, each the set of printed smesher ids of that epoch |
| Nodes.DistinctSmeshers | tests/nodes_test.go:85 | since printing is injective, an epoch's set has one entry per distinct smesher |
| Nodes.UniqueSizes | tests/nodes_test.go:79-87 | each epoch's set size is the number of distinct smeshers in that epoch |
| Nodes.Unique | tests/nodes_test.go:79-87 | the nested loops build that map over all peers' lists |
| Nodes.CheckEpochs | tests/nodes_test.go:88-93 | nothing fails iff epochs 3 to 5 have Total − addedLater smeshers and epochs 6 and 7 have Total; otherwise the first wrong epoch is reported with want and got |
| Nodes.FailedNames | tests/nodes_test.go:111-114 | the names of the last `failed` clients, from the last one down |
| Nodes.SurvivorHashesOutcome | tests/nodes_test.go:123-137 | a survivor's collector ends without error exactly at confirmed layer 23, holding the printed hash of every earlier confirmed layer |
| Nodes.SurvivorLabelsMeaning | tests/nodes_test.go:142-145 | as written, label c is printed iff peer c + 1 differs from peer 0 |
| Nodes.SurvivorLabelNamesReference | tests/nodes_test.go:143-144 | when only peer 1 differs, the message says `client=0`, naming the reference peer |
| Nodes.CompareSurvivors | tests/nodes_test.go:142-145 | the comparison loop prints those labels |
| Nodes.CompareSurvivorsByPeer | tests/nodes_test.go:142-145 | corrected: among the surviving peers, peer i is reported iff its map differs from peer 0's, in order |

## Left out

- Kubernetes: namespaces, services, stateful sets, pods, the manifests, and `DeployNamespace`/`Cleanup`. Each apply call is an error or none.
- context/context.go: only the `nodeSelector` registration (context/context.go:35-39) is modelled, by StringToString.SetThroughWrapper, and it goes through `newStringToStringValue`, because the `stringToString` conversion that line 39 calls belongs to another revision of context/string_to_string.go. The other flags, the in-cluster configuration, the signal handler and the random namespace names are not modelled.
- Text: Go strings are byte sequences; the model's strings are sequences of Unicode scalar values. Flag text that is not valid UTF-8 cannot be represented, and `strings.TrimSpace`, which decodes runes, is modelled on characters directly.
- chaos/partition.go and chaos/fail.go are not part of this model. `Partition2` hands back a teardown also when it fails, which the controllers rely on; teardown is not idempotent, and the model assumes nothing about a second call.
- Concurrency: every peer's goroutine is one sequential fold. `errgroup` cancellation of the other peers when one fails, channel order and timeouts are not modelled. `CollectRewards` and the comparisons take the peers in index order, where Go reads them in channel arrival order. The `createdch` channel of tests/smeshing_test.go:38 has a capacity of `cl.Total()*limit`, and a created proposal sent beyond it blocks its collector until the context ends; Smeshing.GroupByLayer takes an unbounded sequence of created proposals instead.
- gRPC dialing, the stream calls and the five-second dial timeout: oracles.
- TestsCommon.DefaultTargetOutbound and Sanity.DefaultTargetOutbound: `int(0.3·float64(size))` and `int(0.2·float64(size))` are computed as the integer parts of 3·size/10 and size/5. The float64 products truncate to these for every size below 2^52; the rounding of larger sizes is not modelled.
- Floating point: the caller supplies these as parameters.
  - Nodes.CheckEpochs: `addedLater = int(0.2·size)`;
  - Nodes.FailedNames: `failed = int(0.6·size)`;
  - Sanity.CompareRewardSums: the `InDelta` tolerance. The model compares the uint64 sums exactly, while `assert.InDelta` (tests/sanity_test.go:68) converts both sums to float64 first, which rounds sums above 2^53.
- ed25519 key generation and signing: the signature is an arbitrary function of the bytes, and key generation is an oracle.
- Time: the RFC 3339 genesis time (section 5.6 of RFC 3339) and `Duration.String` are given as text. Clocks, tickers and sleeps are not modelled.
- `TestExample` in both example files: an endless loop of sleeps, partitions and a ticker-driven sender.
- The smesher additions, pod waits and cluster object of the later `cluster` revision (`cluster.New`, `AddSmeshers`, `Total`, `Client`), and the `scheduleChaos`, `waitAll` and `collectProposals` that nodes_test.go calls. They belong to the `testcontext` revision of `cluster`, whose other files this model does not cover. nodes_test.go's collectors are modelled through the fold they share with the others.
- Go map iteration order: an explicit order argument. Results are stated for any order the caller gives.
- Smeshing.CheckIncludedLengths: the `sort.Slice` calls at tests/smeshing_test.go:77-79 and 83-85 compare an element with itself, so they promise no order. The model does not sort, and checks only lengths, as the source does.
- tests/healing_test.go:87-90 ranges over the byte slices of `hashes[1]` and compares each with a whole map. It fails whenever peer 1 recorded a layer, and it is not modelled.
- `Cleanup` reports a delete error as "create namespace": Kubernetes calls are out of scope.
- Partition.NilTeardownPanics: Go's run-time panic is modelled as the goroutine ending with the panic message, not as the process aborting.
- Sanity.GatherStep's error text prints the layer number message with `%s`. The caller supplies that text as `show`, because protobuf text formatting is out of scope.

## Findings

| source | as written | input that shows it | evidently intended | confidence | as-written member | corrected member |
|---|---|---|---|---|---|---|
| tests/partition_test.go:58-63 | at layer 20 the controller calls `teardown` even when no partition was made, so `teardown` is nil | peer 0's stream shows layer 20 but never layer 13 (a late start or a skipped layer) | restore only a partition that exists | high, not executed | Partition.NilTeardownPanics | Partition.GuardedControllerOutcome |
| tests/nodes_test.go:143-144 | the failure message prints the index into `hashes[1:…]`, one less than the peer's index | only peer 1 differs from peer 0: the message says `client=0` | print the peer's own index, as tests/partition_test.go:88 does | high, not executed | Nodes.SurvivorLabelNamesReference | Nodes.CompareSurvivorsByPeer |
| tests/sanity_test.go:65 | `reference = &tested` keeps the address of the range variable. Before Go 1.22 that variable is reused, so every later sum is compared with itself | two peers with reward sums 0 and 100 | keep a copy of the first result and compare each later sum with it | medium, not executed; depends on the module's Go version being older than 1.22 | Sanity.CompareRewardSumsAliased | Sanity.CompareRewardSums |
