/** The messages of an attestation: request, response, and the response with the time of its arrival in front. */
module Protocol {
  import opened Bytes
  import opened Defines

  type int64 = n: int | -0x8000_0000_0000_0000 <= n < 0x8000_0000_0000_0000

  datatype Request = Request(id: uint64, nonce: seq<byte>) {
    predicate Fits() {
      |nonce| < 0x1_0000_0000
    }
  }

  datatype Response = Response(aid: Aid, attestatorNumber: uint64, requestId: uint64, hash: seq<byte>) {
    predicate Fits() {
      |hash| < 0x1_0000_0000
    }
  }

  // ---------- requests ----------

  const REQUEST_ID_SIZE: nat := 8
  const REQUEST_HEADER_SIZE: nat := 12

  function EncodeRequest(r: Request): (s: seq<byte>)
    requires r.Fits()
    ensures |s| == REQUEST_HEADER_SIZE + |r.nonce|
  {
    Encode(r.id, 8) + Encode(|r.nonce|, 4) + r.nonce
  }

  /** Header and nonce are there; the attestator relies on it without a look at the length of what came in. */
  predicate HoldsRequest(s: seq<byte>) {
    REQUEST_HEADER_SIZE <= |s| && REQUEST_HEADER_SIZE + Decode(s[8..12]) <= |s|
  }

  function ParseRequest(s: seq<byte>): (r: Request)
    requires HoldsRequest(s)
    ensures r.Fits()
  {
    Capacities();
    Request(Decode(s[0..8]), s[12..12 + Decode(s[8..12])])
  }

  /** The attestator reads back what the manager sent, whatever follows it in the buffer. */
  lemma RequestRoundTrip(r: Request, rest: seq<byte>)
    requires r.Fits()
    ensures var s := EncodeRequest(r) + rest; HoldsRequest(s) && ParseRequest(s) == r
  {
    var s := EncodeRequest(r) + rest;
    FixedWidths(0, |r.nonce|, r.id);
    assert s[0..8] == Encode(r.id, 8);
    assert s[8..12] == Encode(|r.nonce|, 4);
    assert s[12..12 + |r.nonce|] == r.nonce;
  }

  /** And there is no other request that it could have read. */
  lemma ParsedRequestIsSent(s: seq<byte>)
    requires HoldsRequest(s)
    ensures var r := ParseRequest(s); EncodeRequest(r) <= s
  {
    var r := ParseRequest(s);
    EncodeDecode(s[0..8]);
    EncodeDecode(s[8..12]);
    assert s == s[0..8] + s[8..12] + r.nonce + s[12 + |r.nonce|..];
  }

  /** The packing in `send_ra_request`. */
  method BuildRequest(id: uint64, nonce: seq<byte>) returns (buffer: array<byte>)
    requires Request(id, nonce).Fits()
    ensures fresh(buffer) && buffer[..] == EncodeRequest(Request(id, nonce)) && buffer.Length == 12 + |nonce|
    ensures buffer[..8] == Encode(id, 8) && buffer[8..12] == Encode(|nonce|, 4) && buffer[12..] == nonce
  {
    hide Encode;
    buffer := new byte[REQUEST_HEADER_SIZE + |nonce|];
    Memcpy(buffer, 0, Encode(id, 8));
    assert buffer[..8] == Encode(id, 8);
    Memcpy(buffer, 8, Encode(|nonce|, 4));
    Memcpy(buffer, 12, nonce);
    assert buffer[..] == buffer[..REQUEST_HEADER_SIZE + |nonce|];
  }

  // ---------- responses ----------

  const ATTESTATOR_RESP_HEADER_SIZE: nat := 36

  function EncodeResponse(r: Response): (s: seq<byte>)
    requires r.Fits()
    ensures |s| == ATTESTATOR_RESP_HEADER_SIZE + |r.hash|
  {
    r.aid + Encode(r.attestatorNumber, 8) + Encode(r.requestId, 8) + Encode(|r.hash|, 4) + r.hash
  }

  /** The packing in `attestator_routine`. */
  method BuildResponse(r: Response) returns (buffer: array<byte>)
    requires r.Fits()
    ensures fresh(buffer) && buffer[..] == EncodeResponse(r) && buffer.Length == 36 + |r.hash|
    ensures buffer[..16] == r.aid && buffer[16..24] == Encode(r.attestatorNumber, 8)
    ensures buffer[24..32] == Encode(r.requestId, 8) && buffer[32..36] == Encode(|r.hash|, 4) && buffer[36..] == r.hash
  {
    hide Encode;
    buffer := new byte[ATTESTATOR_RESP_HEADER_SIZE + |r.hash|];
    Memcpy(buffer, 0, r.aid);
    assert buffer[..AID_SIZE] == r.aid;
    Memcpy(buffer, AID_SIZE, Encode(r.attestatorNumber, 8));
    Memcpy(buffer, AID_SIZE + 8, Encode(r.requestId, 8));
    Memcpy(buffer, AID_SIZE + 16, Encode(|r.hash|, 4));
    Memcpy(buffer, AID_SIZE + 20, r.hash);
    assert buffer[..] == buffer[..ATTESTATOR_RESP_HEADER_SIZE + |r.hash|];
  }

  // ---------- what the verifier reads ----------

  const VERIFIER_RESP_HEADER_SIZE: nat := 44

  /** A time in memory: 64 bits, two's complement. */
  function EncodeTime(t: int64): (s: seq<byte>)
    ensures |s| == 8
  {
    Encode(Wrap64(t), 8)
  }

  function DecodeTime(s: seq<byte>): int64
    requires |s| == 8
  {
    Capacities();
    var n := Decode(s);
    if n < 0x8000_0000_0000_0000 then n else n - 0x1_0000_0000_0000_0000
  }

  lemma TimeRoundTrip(t: int64)
    ensures DecodeTime(EncodeTime(t)) == t
  {
    FixedWidths(0, 0, Wrap64(t));
    if t < 0 {
      assert Wrap64(t) == Wrap64(t + 0x1_0000_0000_0000_0000);
    }
  }

  /** What `verifier_forwarder` writes into the pipe. */
  function Forward(t: int64, r: Response): seq<byte>
    requires r.Fits()
  {
    EncodeTime(t) + EncodeResponse(r)
  }

  /** Eight bytes of time, and behind them the response as it came. */
  lemma ForwardLayout(t: int64, r: Response)
    requires r.Fits()
    ensures var s := Forward(t, r);
      && s[..8] == Encode(if t < 0 then t + 0x1_0000_0000_0000_0000 else t, 8)
      && s[8..24] == r.aid && s[24..32] == Encode(r.attestatorNumber, 8) && s[32..40] == Encode(r.requestId, 8)
      && s[40..44] == Encode(|r.hash|, 4) && s[44..] == r.hash
  {
    hide Encode;
    if t < 0 {
      assert Wrap64(t) == Wrap64(t + 0x1_0000_0000_0000_0000);
    }
  }

  datatype Header = Header(time: int64, aid: Aid, attestatorNumber: uint64, requestId: uint64, hashSize: uint32)

  function ParseHeader(s: seq<byte>): Header
    requires |s| == VERIFIER_RESP_HEADER_SIZE
  {
    Capacities();
    Header(DecodeTime(s[0..8]), s[8..24], Decode(s[24..32]), Decode(s[32..40]), Decode(s[40..44]))
  }

  function EncodeHeader(h: Header): (s: seq<byte>)
    ensures |s| == VERIFIER_RESP_HEADER_SIZE
  {
    EncodeTime(h.time) + h.aid + Encode(h.attestatorNumber, 8) + Encode(h.requestId, 8) + Encode(h.hashSize, 4)
  }

  lemma HeaderLayout(h: Header)
    ensures var s := EncodeHeader(h);
      && s[..8] == Encode(if h.time < 0 then h.time + 0x1_0000_0000_0000_0000 else h.time, 8)
      && s[8..24] == h.aid && s[24..32] == Encode(h.attestatorNumber, 8) && s[32..40] == Encode(h.requestId, 8)
      && s[40..44] == Encode(h.hashSize, 4)
  {
    hide Encode;
    if h.time < 0 {
      assert Wrap64(h.time) == Wrap64(h.time + 0x1_0000_0000_0000_0000);
    }
  }

  lemma HeaderRoundTrip(h: Header)
    ensures ParseHeader(EncodeHeader(h)) == h
  {
    var s := EncodeHeader(h);
    FixedWidths(0, h.hashSize, h.attestatorNumber);
    FixedWidths(0, 0, h.requestId);
    TimeRoundTrip(h.time);
    assert s[0..8] == EncodeTime(h.time);
    assert s[8..24] == h.aid;
    assert s[24..32] == Encode(h.attestatorNumber, 8);
    assert s[32..40] == Encode(h.requestId, 8);
    assert s[40..44] == Encode(h.hashSize, 4);
  }

  /** The verifier reads back the time, every field of the response, and the hash, for all values of them. */
  lemma ResponseRoundTrip(t: int64, r: Response)
    requires r.Fits()
    ensures var s := Forward(t, r);
      && |s| == VERIFIER_RESP_HEADER_SIZE + |r.hash|
      && ParseHeader(s[..44]) == Header(t, r.aid, r.attestatorNumber, r.requestId, |r.hash|)
      && s[44..] == r.hash
  {
    hide ParseHeader, EncodeTime, Encode;
    var h := Header(t, r.aid, r.attestatorNumber, r.requestId, |r.hash|);
    HeaderRoundTrip(h);
    assert Forward(t, r) == EncodeHeader(h) + r.hash;
  }
}
