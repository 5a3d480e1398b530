/** tests/common.go: the transaction encoder, the submission of a signed
    transaction, node-name extraction and the default outbound peer count. */
module TestsCommon {
  import opened Prelude
  import opened TxLayout
  import opened Mesh

  /** encodeTx: each field appended in turn, the integers through a reused
      8-byte scratch array. */
  method EncodeTx(tx: Transaction) returns (buf: seq<Byte>)
    ensures buf == Encode(tx)
    ensures Decode(buf) == Some(tx)
  {
    var scratch := new Byte[8];
    buf := [];
    PutUint64(scratch, tx.nonce);
    buf := buf + scratch[..];
    buf := buf + tx.recipient;
    assert buf == BigEndian(tx.nonce, 8) + tx.recipient;
    PutUint64(scratch, tx.gasLimit);
    buf := buf + scratch[..];
    PutUint64(scratch, tx.fee);
    buf := buf + scratch[..];
    assert buf == BigEndian(tx.nonce, 8) + tx.recipient + BigEndian(tx.gasLimit, 8) + BigEndian(tx.fee, 8);
    PutUint64(scratch, tx.amount);
    buf := buf + scratch[..];
    DecodeEncode(tx);
  }

  const NilTxState: string := "tx state should not be nil"

  /** submitTransacition: the request carries the encoding followed by the
      signature over it (`sign` is ed25519.Sign2 with the sender's key; `rpc`
      is the node's answer to a payload). */
  method SubmitTransaction(sign: seq<Byte> -> seq<Byte>, tx: Transaction, rpc: seq<Byte> -> SubmitReply)
    returns (payload: seq<Byte>, err: Option<string>)
    ensures payload == Signed(tx, sign)
    ensures Decode(payload[..EncodedLength]) == Some(tx)
    ensures rpc(payload).RpcFailed? ==> err == Some(rpc(payload).err)
    ensures rpc(payload) == Replied(false) ==> err == Some(NilTxState)
    ensures err == None <==> rpc(payload) == Replied(true)
  {
    var encoded := EncodeTx(tx);
    payload := encoded + sign(encoded);
    match rpc(payload)
    case RpcFailed(e) =>
      err := Some(e);
    case Replied(stateSet) =>
      err := if stateSet then None else Some(NilTxState);
  }

  /** extractNames: the pod names, one per node, in argument order. */
  method ExtractNames(nodes: seq<NodeClient>) returns (rst: seq<string>)
    ensures |rst| == |nodes|
    ensures forall i :: 0 <= i < |nodes| ==> rst[i] == nodes[i].name
  {
    rst := [];
    for i := 0 to |nodes|
      invariant |rst| == i
      invariant forall j :: 0 <= j < i ==> rst[j] == nodes[j].name
    {
      rst := rst + [nodes[i].name];
    }
  }

  /** defaultTargetOutbound: 3 below ten nodes; from ten on, the floating
      point `int(0.3 * float64(size))`, computed here exactly as the integer
      part of 3·size/10, which the float64 product truncates to for every
      size below 2^52. */
  function DefaultTargetOutbound(size: int): (r: int)
    ensures size < 10 ==> r == 3
    ensures size >= 10 ==> 3 <= r && 10 * r <= 3 * size < 10 * r + 10
  {
    if size < 10 then 3 else 3 * size / 10
  }
}
