/** The hash that an attestator sends and a verifier recomputes. */
module Hashing {
  import opened Blake2s
  import opened Bytes
  import opened Defines
  import opened Results
  import opened Rfc7693

  const BLAKE_HASH_SIZE: nat := 32

  /** Nonce, prepared data, application and attestator number, one after the other and without any length. */
  function HashInput(nonce: seq<byte>, data: seq<byte>, aid: Aid, attestatorNumber: uint64): seq<byte> {
    nonce + data + aid + Encode(attestatorNumber, 8)
  }

  /** A hash function of fixed length; the repository has five to choose from. */
  type Hash = seq<byte> -> seq<byte>

  ghost predicate HasLength(hash: Hash, n: nat) {
    forall x :: |hash(x)| == n
  }

  /** The one that is modelled: BLAKE2s, 32 bytes, without a key. */
  function Blake(): Hash {
    x => Digest(x, [], BLAKE_HASH_SIZE)
  }

  function HashOf(hash: Hash, nonce: seq<byte>, data: seq<byte>, aid: Aid, attestatorNumber: uint64): seq<byte> {
    hash(HashInput(nonce, data, aid, attestatorNumber))
  }

  lemma BlakeHasLength()
    ensures HasLength(Blake(), BLAKE_HASH_SIZE)
  {
    forall x
      ensures |Blake()(x)| == BLAKE_HASH_SIZE
    {
      assert Blake()(x) == Digest(x, [], BLAKE_HASH_SIZE);
    }
  }

  lemma BlakeOf(nonce: seq<byte>, data: seq<byte>, aid: Aid, k: uint64)
    ensures HashOf(Blake(), nonce, data, aid, k) == Digest(HashInput(nonce, data, aid, k), [], BLAKE_HASH_SIZE)
  {
    hide Digest;
  }

  /** Which bytes of the input are which field. */
  lemma HashInputLayout(nonce: seq<byte>, data: seq<byte>, aid: Aid, attestatorNumber: uint64)
    ensures var x, n, m := HashInput(nonce, data, aid, attestatorNumber), |nonce|, |nonce| + |data|;
      && |x| == m + 24
      && x[..n] == nonce && x[n..m] == data && x[m..m + 16] == aid && x[m + 16..] == Encode(attestatorNumber, 8)
  {
  }

  /** The input tells application and attestator apart, but not where the nonce ends and the data begins. */
  lemma HashInputSeparates(n1: seq<byte>, d1: seq<byte>, a1: Aid, k1: uint64,
                           n2: seq<byte>, d2: seq<byte>, a2: Aid, k2: uint64)
    ensures HashInput(n1, d1, a1, k1) == HashInput(n2, d2, a2, k2) <==> n1 + d1 == n2 + d2 && a1 == a2 && k1 == k2
  {
    var x, y := HashInput(n1, d1, a1, k1), HashInput(n2, d2, a2, k2);
    FixedWidths(0, 0, k1);
    FixedWidths(0, 0, k2);
    assert x[|x| - 8..] == Encode(k1, 8) && y[|y| - 8..] == Encode(k2, 8);
    assert x[|x| - 24..|x| - 8] == a1 && y[|y| - 24..|y| - 8] == a2;
    assert x[..|x| - 24] == n1 + d1 && y[..|y| - 24] == n2 + d2;
  }

  /** For one nonce, different data always makes different input. */
  lemma SameNonceSeparatesData(nonce: seq<byte>, d1: seq<byte>, d2: seq<byte>, aid: Aid, k: uint64)
    ensures HashInput(nonce, d1, aid, k) == HashInput(nonce, d2, aid, k) <==> d1 == d2
  {
    HashInputSeparates(nonce, d1, aid, k, nonce, d2, aid, k);
    assert (nonce + d1)[|nonce|..] == d1 && (nonce + d2)[|nonce|..] == d2;
  }

  /** `ra_do_hash`, BLAKE2 version; the three lengths are added up in 32 bits, and the sum must fit. */
  method DoHash(nonce: seq<byte>, data: seq<byte>, aid: Aid, attestatorNumber: uint64, key: Option<seq<byte>>)
    returns (rc: RaResult, packed: seq<byte>)
    requires |nonce| + |data| + AID_SIZE < 0x1_0000_0000
    ensures rc == if key.Some? && |key.value| > 32 then ErrorGeneric else Success
    ensures rc == Success ==>
      var input, k := HashInput(nonce, data, aid, attestatorNumber), if key.Some? then key.value else [];
      packed == Digest(input, k, BLAKE_HASH_SIZE)
  {
    hide Digest, Wrap, Encode;
    WrapIsSmall(|nonce| + |data|, 0x1_0000_0000);
    WrapIsSmall(|nonce| + |data| + AID_SIZE, 0x1_0000_0000);
    var size := Wrap32(Wrap32(|nonce| + |data|) + AID_SIZE) + 8;
    var buffer := new byte[size];
    Memcpy(buffer, 0, nonce);
    assert buffer[..|nonce|] == nonce;
    Memcpy(buffer, |nonce|, data);
    assert buffer[..|nonce| + |data|] == nonce + data;
    Memcpy(buffer, |nonce| + |data|, aid);
    Memcpy(buffer, |nonce| + |data| + AID_SIZE, Encode(attestatorNumber, 8));
    assert buffer[..] == buffer[..size];
    var out := new byte[BLAKE_HASH_SIZE];
    var r := Blake2s.Blake2s(out, Some(buffer[..]), key, BLAKE_HASH_SIZE as byte);
    packed := out[..];
    rc := if r != 0 then ErrorGeneric else Success;
  }
}
