/** The fixed 52-byte layout that every copy of encodeTx writes: the nonce,
    the 20-byte recipient, the gas limit, the fee and the amount, each integer
    as 8 big-endian bytes. This module states the layout once; each source
    file's own encodeTx is a method in that file's module. */
module TxLayout {
  import opened Prelude

  type Address = s: seq<Byte> | |s| == 20 witness seq(20, _ => 0)

  datatype Transaction = Transaction(
    nonce: Uint64,
    recipient: Address,
    gasLimit: Uint64,
    fee: Uint64,
    amount: Uint64)

  const EncodedLength: nat := 52

  function Pow256(k: nat): (p: nat)
    ensures p >= 1
  {
    if k == 0 then 1 else 256 * Pow256(k - 1)
  }

  lemma Pow256Of8()
    ensures Pow256(8) == Uint64Modulus
  {
  }

  /** The n low-order bytes of v, most significant first
      (binary.BigEndian.PutUint64 when n is 8). */
  function BigEndian(v: nat, n: nat): (r: seq<Byte>)
    ensures |r| == n
  {
    if n == 0 then [] else BigEndian(v / 256, n - 1) + [v % 256]
  }

  /** The value of big-endian bytes (binary.BigEndian.Uint64 when there are 8). */
  function FromBigEndian(s: seq<Byte>): (v: nat)
    ensures v < Pow256(|s|)
  {
    if |s| == 0 then 0 else FromBigEndian(s[..|s| - 1]) * 256 + s[|s| - 1]
  }

  lemma {:induction false} BigEndianRoundTrip(v: nat, n: nat)
    requires v < Pow256(n)
    ensures FromBigEndian(BigEndian(v, n)) == v
  {
    if n > 0 {
      BigEndianRoundTrip(v / 256, n - 1);
      var r := BigEndian(v, n);
      assert r[..n - 1] == BigEndian(v / 256, n - 1);
    }
  }

  lemma {:induction false} FromBigEndianRoundTrip(s: seq<Byte>)
    ensures BigEndian(FromBigEndian(s), |s|) == s
  {
    if |s| > 0 {
      var init := s[..|s| - 1];
      FromBigEndianRoundTrip(init);
      var v := FromBigEndian(s);
      assert v / 256 == FromBigEndian(init) && v % 256 == s[|s| - 1];
      assert s == init + [s[|s| - 1]];
    }
  }

  /** The 52 bytes: nonce, recipient, gas limit, fee, amount. */
  function Encode(tx: Transaction): (r: seq<Byte>)
    ensures |r| == EncodedLength
  {
    BigEndian(tx.nonce, 8) + tx.recipient + BigEndian(tx.gasLimit, 8)
      + BigEndian(tx.fee, 8) + BigEndian(tx.amount, 8)
  }

  /** Reads the fixed layout back; anything but 52 bytes is refused. */
  function Decode(b: seq<Byte>): Option<Transaction>
  {
    if |b| != EncodedLength then None
    else
      Pow256Of8();
      Some(Transaction(FromBigEndian(b[0..8]), b[8..28], FromBigEndian(b[28..36]),
        FromBigEndian(b[36..44]), FromBigEndian(b[44..52])))
  }

  /** The fields sit at offsets 0, 8, 28, 36 and 44. */
  lemma EncodeLayout(tx: Transaction)
    ensures Encode(tx)[0..8] == BigEndian(tx.nonce, 8)
    ensures Encode(tx)[8..28] == tx.recipient
    ensures Encode(tx)[28..36] == BigEndian(tx.gasLimit, 8)
    ensures Encode(tx)[36..44] == BigEndian(tx.fee, 8)
    ensures Encode(tx)[44..52] == BigEndian(tx.amount, 8)
  {
  }

  /** Decoding the layout recovers the transaction. */
  lemma DecodeEncode(tx: Transaction)
    ensures Decode(Encode(tx)) == Some(tx)
  {
    EncodeLayout(tx);
    Pow256Of8();
    BigEndianRoundTrip(tx.nonce, 8);
    BigEndianRoundTrip(tx.gasLimit, 8);
    BigEndianRoundTrip(tx.fee, 8);
    BigEndianRoundTrip(tx.amount, 8);
  }

  /** So distinct transactions never share an encoding. */
  lemma EncodeInjective(a: Transaction, b: Transaction)
    requires Encode(a) == Encode(b)
    ensures a == b
  {
    DecodeEncode(a);
    DecodeEncode(b);
  }

  /** binary.BigEndian.PutUint64 into the 8-byte scratch array: the least
      significant byte goes last, each step shifting the rest right by 8. */
  method PutUint64(b: array<Byte>, v: Uint64)
    requires b.Length == 8
    modifies b
    ensures b[..] == BigEndian(v, 8)
  {
    var w: nat := v;
    var k := 0;
    while k < 8
      invariant 0 <= k <= 8
      invariant BigEndian(v, 8) == BigEndian(w, 8 - k) + b[8 - k..]
    {
      b[7 - k] := w % 256;
      w := w / 256;
      k := k + 1;
    }
  }

  /** The submitted payload: the encoding, then the signature over exactly
      those bytes (the ed25519 signer is a parameter). */
  function Signed(tx: Transaction, sign: seq<Byte> -> seq<Byte>): (p: seq<Byte>)
    ensures |p| == EncodedLength + |sign(Encode(tx))|
    ensures p[..EncodedLength] == Encode(tx)
    ensures p[EncodedLength..] == sign(Encode(tx))
  {
    Encode(tx) + sign(Encode(tx))
  }
}
