/** example/example_test.go: signers and their hex addresses, the genesis
    accounts map, node names, and its own copies of the transaction encoder
    and of the signed submission. */
module ExampleTest {
  import opened Prelude
  import opened TxLayout
  import opened Mesh
  import opened Testify

  /** An ed25519 public key as GenerateKey returns it: 32 bytes. */
  type PublicKey = s: seq<Byte> | |s| == 32 witness seq(32, _ => 0)

  datatype Signer = Signer(pub: PublicKey, pk: seq<Byte>)

  /** The balance genGenesis gives every account. */
  const GenesisBalance: Uint64 := 100000000000000000

  /** signer.Address: "0x" and the lower-case hex of the last 20 key bytes. */
  function Address(s: Signer): (a: string)
    ensures |a| == 42 && a[..2] == "0x"
    ensures forall i :: 2 <= i < |a| ==> IsLowerHex(a[i])
    ensures Unhex(a[2..]) == s.pub[12..]
  {
    var a := "0x" + Hex(s.pub[12..]);
    assert a[2..] == Hex(s.pub[12..]);
    UnhexHex(s.pub[12..]);
    a
  }

  /** Two signers share an address exactly when their keys share the last
      20 bytes. */
  lemma AddressIdentifiesKeyTail(a: Signer, b: Signer)
    ensures Address(a) == Address(b) <==> a.pub[12..] == b.pub[12..]
  {
    if Address(a) == Address(b) {
      assert Unhex(Address(a)[2..]) == Unhex(Address(b)[2..]);
    }
  }

  /** The addresses of the given signers. */
  function AddressSet(signers: seq<Signer>): set<string>
  {
    set i | 0 <= i < |signers| :: Address(signers[i])
  }

  /** genGenesis: every signer's address mapped to the genesis balance. */
  method GenGenesis(signers: seq<Signer>) returns (rst: map<string, Uint64>)
    ensures rst.Keys == AddressSet(signers)
    ensures forall a :: a in rst ==> rst[a] == GenesisBalance
  {
    rst := map[];
    for i := 0 to |signers|
      invariant rst.Keys == AddressSet(signers[..i])
      invariant forall a :: a in rst ==> rst[a] == GenesisBalance
    {
      AddressSetSnoc(signers[..i + 1]);
      assert signers[..i + 1][..i] == signers[..i];
      rst := rst[Address(signers[i]) := GenesisBalance];
    }
    assert signers[..|signers|] == signers;
  }

  lemma AddressSetSnoc(signers: seq<Signer>)
    requires |signers| > 0
    ensures AddressSet(signers)
      == AddressSet(signers[..|signers| - 1]) + {Address(signers[|signers| - 1])}
  {
    var init := signers[..|signers| - 1];
    forall a | a in AddressSet(init) ensures a in AddressSet(signers) {
      var i :| 0 <= i < |init| && Address(init[i]) == a;
      assert signers[i] == init[i];
    }
    forall a | a in AddressSet(signers) ensures a in AddressSet(init) + {Address(signers[|signers| - 1])} {
      var i :| 0 <= i < |signers| && Address(signers[i]) == a;
      if i < |init| {
        assert signers[i] == init[i];
      }
    }
  }

  lemma AddressNotAmong(init: seq<Signer>, last: Signer)
    requires forall i :: 0 <= i < |init| ==> init[i].pub[12..] != last.pub[12..]
    ensures Address(last) !in AddressSet(init)
  {
    forall i | 0 <= i < |init| ensures Address(init[i]) != Address(last) {
      AddressIdentifiesKeyTail(init[i], last);
    }
  }

  /** With pairwise different key tails, genGenesis holds one account per signer. */
  lemma {:induction false} GenesisHasOneAccountPerSigner(signers: seq<Signer>)
    requires forall i, j :: 0 <= i < j < |signers| ==> signers[i].pub[12..] != signers[j].pub[12..]
    ensures |AddressSet(signers)| == |signers|
  {
    if |signers| > 0 {
      var init := signers[..|signers| - 1];
      var last := signers[|signers| - 1];
      GenesisHasOneAccountPerSigner(init);
      AddressSetSnoc(signers);
      AddressNotAmong(init, last);
    }
  }

  /** genSigners: n calls of ed25519.GenerateKey (the i-th answer is
      `keygen(i)`); an error fails the test through require.NoError. */
  method GenSigners(n: int, keygen: nat -> Result<Signer>) returns (rst: seq<Signer>, failure: Option<Failure>)
    ensures forall i :: 0 <= i < |rst| ==> keygen(i) == Ok(rst[i])
    ensures failure.None? ==> |rst| == (if n > 0 then n else 0)
    ensures failure.Some? ==>
      |rst| < n && keygen(|rst|).Err? && failure.value == UnexpectedError(keygen(|rst|).error)
  {
    rst := [];
    var i := 0;
    while i < n
      invariant 0 <= i == |rst|
      invariant i <= (if n > 0 then n else 0)
      invariant forall j :: 0 <= j < i ==> keygen(j) == Ok(rst[j])
    {
      match keygen(i)
      case Err(e) =>
        return rst, Some(UnexpectedError(e));
      case Ok(s) =>
        rst := rst + [s];
      i := i + 1;
    }
    failure := None;
  }

  /** getNames: the pod names, one per node, in argument order. */
  method GetNames(nodes: seq<NodeClient>) returns (rst: seq<string>)
    ensures |rst| == |nodes|
    ensures forall i :: 0 <= i < |nodes| ==> rst[i] == nodes[i].name
  {
    rst := [];
    for i := 0 to |nodes|
      invariant |rst| == i
      invariant forall j :: 0 <= j < i ==> rst[j] == nodes[j].name
    {
      rst := rst + [nodes[i].name];
    }
  }

  /** encodeTx, as in tests/common.go. */
  method EncodeTx(tx: Transaction) returns (buf: seq<Byte>)
    ensures buf == Encode(tx)
    ensures Decode(buf) == Some(tx)
  {
    var scratch := new Byte[8];
    buf := [];
    PutUint64(scratch, tx.nonce);
    buf := buf + scratch[..];
    buf := buf + tx.recipient;
    assert buf == BigEndian(tx.nonce, 8) + tx.recipient;
    PutUint64(scratch, tx.gasLimit);
    buf := buf + scratch[..];
    PutUint64(scratch, tx.fee);
    buf := buf + scratch[..];
    assert buf == BigEndian(tx.nonce, 8) + tx.recipient + BigEndian(tx.gasLimit, 8) + BigEndian(tx.fee, 8);
    PutUint64(scratch, tx.amount);
    buf := buf + scratch[..];
    DecodeEncode(tx);
  }

  const NilTxState: string := "tx state is nil"

  /** submitTransacition: the encoding followed by ed25519.Sign2 over it with
      the signer's private key (`sign`), then require.NoError and
      require.NotNil on the answer. */
  method SubmitTransaction(sign: (seq<Byte>, seq<Byte>) -> seq<Byte>, sig: Signer, tx: Transaction,
                           rpc: seq<Byte> -> SubmitReply)
    returns (payload: seq<Byte>, failure: Option<Failure>)
    ensures |payload| >= EncodedLength
    ensures payload[..EncodedLength] == Encode(tx)
    ensures payload[EncodedLength..] == sign(sig.pk, Encode(tx))
    ensures rpc(payload).RpcFailed? ==> failure == Some(UnexpectedError(rpc(payload).err))
    ensures rpc(payload) == Replied(false) ==> failure == Some(UnexpectedNil(NilTxState))
    ensures failure == None <==> rpc(payload) == Replied(true)
  {
    var encoded := EncodeTx(tx);
    payload := encoded + sign(sig.pk, encoded);
    match rpc(payload)
    case RpcFailed(e) =>
      failure := Some(UnexpectedError(e));
    case Replied(stateSet) =>
      failure := if stateSet then None else Some(UnexpectedNil(NilTxState));
  }
}
