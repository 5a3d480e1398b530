/** tests/example_test.go: its own copy of the transaction encoder, a
    submission that fails the test through testify instead of returning an
    error, and node-name extraction. */
module TestsExample {
  import opened Prelude
  import opened TxLayout
  import opened Mesh
  import opened Testify

  /** encodeTx, as in tests/common.go. */
  method EncodeTx(tx: Transaction) returns (buf: seq<Byte>)
    ensures buf == Encode(tx)
    ensures Decode(buf) == Some(tx)
  {
    var scratch := new Byte[8];
    buf := [];
    PutUint64(scratch, tx.nonce);
    buf := buf + scratch[..];
    buf := buf + tx.recipient;
    assert buf == BigEndian(tx.nonce, 8) + tx.recipient;
    PutUint64(scratch, tx.gasLimit);
    buf := buf + scratch[..];
    PutUint64(scratch, tx.fee);
    buf := buf + scratch[..];
    assert buf == BigEndian(tx.nonce, 8) + tx.recipient + BigEndian(tx.gasLimit, 8) + BigEndian(tx.fee, 8);
    PutUint64(scratch, tx.amount);
    buf := buf + scratch[..];
    DecodeEncode(tx);
  }

  const NilTxState: string := "tx state is nil"

  /** submitTransacition: sends the encoding followed by its signature, then
      `require.NoError` on the RPC error and `require.NotNil` on TxState. */
  method SubmitTransaction(sign: seq<Byte> -> seq<Byte>, tx: Transaction, rpc: seq<Byte> -> SubmitReply)
    returns (payload: seq<Byte>, failure: Option<Failure>)
    ensures payload == Signed(tx, sign)
    ensures Decode(payload[..EncodedLength]) == Some(tx)
    ensures rpc(payload).RpcFailed? ==> failure == Some(UnexpectedError(rpc(payload).err))
    ensures rpc(payload) == Replied(false) ==> failure == Some(UnexpectedNil(NilTxState))
    ensures failure == None <==> rpc(payload) == Replied(true)
  {
    var encoded := EncodeTx(tx);
    payload := encoded + sign(encoded);
    match rpc(payload)
    case RpcFailed(e) =>
      failure := Some(UnexpectedError(e));
    case Replied(stateSet) =>
      failure := if stateSet then None else Some(UnexpectedNil(NilTxState));
  }

  /** extractNames: the pod names, one per node, in argument order. */
  method ExtractNames(nodes: seq<NodeClient>) returns (rst: seq<string>)
    ensures |rst| == |nodes|
    ensures forall i :: 0 <= i < |nodes| ==> rst[i] == nodes[i].name
  {
    rst := [];
    for i := 0 to |nodes|
      invariant |rst| == i
      invariant forall j :: 0 <= j < i ==> rst[j] == nodes[j].name
    {
      rst := rst + [nodes[i].name];
    }
  }
}
