/** The parts of the node API messages (spacemesh v1) and of the cluster's
    node handle that the scenarios read. */
module Mesh {
  import opened Prelude

  /** cluster.NodeClient as the scenarios use it: by its pod name. */
  datatype NodeClient = NodeClient(name: string)

  datatype LayerStatus = Unspecified | Approved | Confirmed

  /** A transaction as the mesh reports it; compared by value. */
  datatype MeshTx = MeshTx(id: seq<Byte>)

  datatype Block = Block(transactions: seq<MeshTx>)

  /** A LayerStreamResponse: the layer number, its status, hash and blocks. */
  datatype Layer = Layer(number: Uint32, status: LayerStatus, hash: seq<Byte>, blocks: seq<Block>)

  datatype ProposalStatus = Created | Included

  /** A proposal event: its layer, epoch, the smesher id, how many
      eligibilities it carries, and its status. */
  datatype Proposal = Proposal(
    layer: Uint32,
    epoch: Uint64,
    smesher: seq<Byte>,
    eligibilities: nat,
    status: ProposalStatus)

  /** A SmesherRewardStream message: the layer and the reward value. */
  datatype Reward = Reward(layer: Uint32, value: Uint64)

  /** The outcome of a SubmitTransaction call: a transport or RPC error, or
      a response whose TxState is set or nil. */
  datatype SubmitReply = RpcFailed(err: string) | Replied(txStateSet: bool)
}

/** The testify assertions the scenarios make, as the failure each reports.
    A failed `require` stops the test; a failed `assert` is recorded and
    the test goes on. */
module Testify {
  datatype Failure =
    | UnexpectedError(err: string)        // require.NoError
    | UnexpectedNil(msg: string)          // require.NotNil
    | UnexpectedEmpty                     // require.NotEmpty
    | WrongLength(want: int, got: int)    // require.Len
    | NotEqual(index: nat)                // require.Equal / assert.Equal, by position
}
