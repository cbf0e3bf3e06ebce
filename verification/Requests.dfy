/** Cross-chain requests and the byte strings that are hashed for them: the ink! contract's
    little-endian layout, the Solidity contract's packed layout, and what the relayer builds. */
module Requests {
  import opened Prelude
  import opened Bytes

  datatype Request = Request(committee: U256, token: Bytes32, amount: U256, receiver: Bytes32, nonce: U256)

  predicate FitsU128(r: Request) {
    r.committee < U128_LIMIT && r.amount < U128_LIMIT && r.nonce < U128_LIMIT
  }

  ghost predicate Names(r: Request, committee: nat, token: Bytes32, amount: nat, receiver: Bytes32, nonce: nat) {
    r.committee == committee && r.token == token && r.amount == amount && r.receiver == receiver && r.nonce == nonce
  }

  /** Requests whose integers fit the u128 parameters of the ink! contract. */
  type AzRequest = r: Request | FitsU128(r) witness Request(0, 0, 0, 0, 0)

  /** Keccak-256 as a free, hence injective, constructor; `Raw` is a 32-byte word nobody hashed to. */
  datatype Digest = Keccak(preimage: seq<byte>) | Raw(word: Bytes32)

  // ----- Aleph Zero: hash_request_data

  function AzPreimage(r: AzRequest): (b: seq<byte>)
    ensures |b| == 112
  {
    LittleEndian(r.committee, 16) + BigEndian(r.token, 32) + LittleEndian(r.amount, 16)
      + BigEndian(r.receiver, 32) + LittleEndian(r.nonce, 16)
  }

  function AzDigest(r: AzRequest): Digest {
    Keccak(AzPreimage(r))
  }

  function ReadWord(b: seq<byte>, at: nat): Bytes32
    requires at + 32 <= |b|
  {
    FromBigEndianBounded(b[at..at + 32]);
    Widths();
    FromBigEndian(b[at..at + 32])
  }

  function ReadU128(b: seq<byte>, at: nat): U128
    requires at + 16 <= |b|
  {
    FromLittleEndianBounded(b[at..at + 16]);
    Widths();
    FromLittleEndian(b[at..at + 16])
  }

  /** The request a digest stands for on Aleph Zero, if any. */
  function AzRequestOf(h: Digest): Option<AzRequest> {
    if h.Keccak? && |h.preimage| == 112 then
      var b := h.preimage;
      var (c, a, n) := (ReadU128(b, 0), ReadU128(b, 48), ReadU128(b, 96));
      Some(Request(c, ReadWord(b, 16), a, ReadWord(b, 64), n))
    else None
  }

  lemma AzFields(r: AzRequest)
    ensures var b := AzPreimage(r);
            && b[0..16] == LittleEndian(r.committee, 16) && b[16..48] == BigEndian(r.token, 32)
            && b[48..64] == LittleEndian(r.amount, 16) && b[64..96] == BigEndian(r.receiver, 32)
            && b[96..112] == LittleEndian(r.nonce, 16)
  {
  }

  /** Left inverse: distinct requests never share an Aleph Zero pre-image. */
  lemma AzRoundTrip(r: AzRequest)
    ensures AzRequestOf(AzDigest(r)) == Some(r)
  {
    Widths();
    AzFields(r);
    LittleEndianRoundTrip(r.committee, 16);
    LittleEndianRoundTrip(r.amount, 16);
    LittleEndianRoundTrip(r.nonce, 16);
    BigEndianRoundTrip(r.token, 32);
    BigEndianRoundTrip(r.receiver, 32);
  }

  // ----- Ethereum: keccak256(abi.encodePacked(...))

  function EthPreimage(r: Request): (b: seq<byte>)
    ensures |b| == 160
  {
    BigEndian(r.committee, 32) + BigEndian(r.token, 32) + BigEndian(r.amount, 32)
      + BigEndian(r.receiver, 32) + BigEndian(r.nonce, 32)
  }

  function EthDigest(r: Request): Digest {
    Keccak(EthPreimage(r))
  }

  function EthRequestOf(h: Digest): Option<Request> {
    if h.Keccak? && |h.preimage| == 160 then
      var b := h.preimage;
      Some(Request(ReadWord(b, 0), ReadWord(b, 32), ReadWord(b, 64), ReadWord(b, 96), ReadWord(b, 128)))
    else None
  }

  lemma EthFields(r: Request)
    ensures var b := EthPreimage(r);
            && b[0..32] == BigEndian(r.committee, 32) && b[32..64] == BigEndian(r.token, 32)
            && b[64..96] == BigEndian(r.amount, 32) && b[96..128] == BigEndian(r.receiver, 32)
            && b[128..160] == BigEndian(r.nonce, 32)
  {
  }

  lemma EthRoundTrip(r: Request)
    ensures EthRequestOf(EthDigest(r)) == Some(r)
  {
    Widths();
    EthFields(r);
    BigEndianRoundTrip(r.committee, 32);
    BigEndianRoundTrip(r.token, 32);
    BigEndianRoundTrip(r.amount, 32);
    BigEndianRoundTrip(r.receiver, 32);
    BigEndianRoundTrip(r.nonce, 32);
  }

  /** Key of the Solidity committee mapping: keccak256(abi.encodePacked(committeeId, member)). */
  function MemberId(committee: U256, member: Address): Digest {
    Keccak(BigEndian(committee, 32) + BigEndian(member, 20))
  }

  lemma MemberIdInjective(c: U256, a: Address, d: U256, b: Address)
    requires MemberId(c, a) == MemberId(d, b)
    ensures c == d && a == b
  {
    Widths();
    var p := BigEndian(c, 32) + BigEndian(a, 20);
    var q := BigEndian(d, 32) + BigEndian(b, 20);
    assert p[..32] == BigEndian(c, 32) && p[32..] == BigEndian(a, 20);
    assert q[..32] == BigEndian(d, 32) && q[32..] == BigEndian(b, 20);
    BigEndianRoundTrip(c, 32);
    BigEndianRoundTrip(d, 32);
    BigEndianRoundTrip(a, 20);
    BigEndianRoundTrip(b, 20);
  }

  // ----- the relayer's side

  function Flatten(arrays: seq<seq<byte>>): seq<byte> {
    if arrays == [] then [] else Flatten(arrays[..|arrays| - 1]) + arrays[|arrays| - 1]
  }

  method ConcatU8Arrays(arrays: seq<seq<byte>>) returns (result: seq<byte>)
    ensures result == Flatten(arrays)
  {
    result := [];
    for i := 0 to |arrays|
      invariant result == Flatten(arrays[..i])
    {
      assert arrays[..i + 1][..i] == arrays[..i];
      result := result + arrays[i];
    }
    assert arrays[..|arrays|] == arrays;
  }

  lemma FlattenFive(a: seq<byte>, b: seq<byte>, c: seq<byte>, d: seq<byte>, e: seq<byte>)
    ensures Flatten([a, b, c, d, e]) == a + b + c + d + e
  {
    assert Flatten([a]) == a by { assert [a][..0] == []; }
    assert Flatten([a, b]) == a + b by { assert [a, b][..1] == [a]; }
    assert Flatten([a, b, c]) == a + b + c by { assert [a, b, c][..2] == [a, b]; }
    assert Flatten([a, b, c, d]) == a + b + c + d by { assert [a, b, c, d][..3] == [a, b, c]; }
    assert [a, b, c, d, e][..4] == [a, b, c, d];
  }

  /** Ethereum event to Aleph Zero vote; `as_u128` panics on wider integers, which is `None`. */
  method RelayToAzero(event: Request) returns (vote: Option<(Digest, AzRequest)>)
    ensures vote == if FitsU128(event) then Some((AzDigest(event), event)) else None
  {
    if !FitsU128(event) {
      return None;
    }
    var parts := [LittleEndian(event.committee, 16), BigEndian(event.token, 32), LittleEndian(event.amount, 16),
                  BigEndian(event.receiver, 32), LittleEndian(event.nonce, 16)];
    var bytes := ConcatU8Arrays(parts);
    FlattenFive(parts[0], parts[1], parts[2], parts[3], parts[4]);
    vote := Some((Keccak(bytes), event));
  }

  /** ABI head tokens, encoded as the ABI specification defines them: integers are the shortest
      big-endian spelling padded on the left to a word, fixed bytes are padded on the right. */
  datatype Token = Uint(value: U256) | FixedBytes(raw: seq<byte>)

  function Zeros(n: nat): (z: seq<byte>)
    ensures |z| == n
  {
    seq(n, _ => 0)
  }

  function Shortest(x: nat): seq<byte> {
    if x == 0 then [] else Shortest(x / 256) + [x % 256]
  }

  lemma {:induction false} ShortestPadded(x: nat, n: nat)
    requires x < Pow256(n)
    ensures |Shortest(x)| <= n
    ensures Zeros(n - |Shortest(x)|) + Shortest(x) == BigEndian(x, n)
  {
    if n > 0 {
      ShortestPadded(x / 256, n - 1);
      if x == 0 {
        assert Zeros(n) == Zeros(n - 1) + [0];
      } else {
        var k := n - |Shortest(x)|;
        assert Zeros(k) + Shortest(x) == Zeros(k) + Shortest(x / 256) + [x % 256];
      }
    }
  }

  function EncodeToken(t: Token): seq<byte> {
    match t
    case Uint(x) =>
      Widths();
      ShortestPadded(x, 32);
      Zeros(32 - |Shortest(x)|) + Shortest(x)
    case FixedBytes(raw) =>
      if |raw| <= 32 then raw + Zeros(32 - |raw|) else raw
  }

  method AbiEncode(tokens: seq<Token>) returns (result: seq<byte>)
    ensures result == Flatten(seq(|tokens|, i requires 0 <= i < |tokens| => EncodeToken(tokens[i])))
  {
    ghost var words := seq(|tokens|, i requires 0 <= i < |tokens| => EncodeToken(tokens[i]));
    result := [];
    for i := 0 to |tokens|
      invariant result == Flatten(words[..i])
    {
      assert words[..i + 1][..i] == words[..i];
      result := result + EncodeToken(tokens[i]);
    }
    assert words[..|words|] == words;
  }

  /** Aleph Zero event to Ethereum vote: the ABI words agree with the contract's packed words. */
  method RelayToEthereum(event: AzRequest) returns (vote: (Digest, Request))
    ensures vote == (EthDigest(event), event)
  {
    var tokens := [Uint(event.committee), FixedBytes(BigEndian(event.token, 32)), Uint(event.amount),
                   FixedBytes(BigEndian(event.receiver, 32)), Uint(event.nonce)];
    var bytes := AbiEncode(tokens);
    Widths();
    ShortestPadded(event.committee, 32);
    ShortestPadded(event.amount, 32);
    ShortestPadded(event.nonce, 32);
    assert EncodeToken(tokens[1]) == BigEndian(event.token, 32);
    assert EncodeToken(tokens[3]) == BigEndian(event.receiver, 32);
    assert seq(|tokens|, i requires 0 <= i < |tokens| => EncodeToken(tokens[i])) ==
           [BigEndian(event.committee, 32), BigEndian(event.token, 32), BigEndian(event.amount, 32),
            BigEndian(event.receiver, 32), BigEndian(event.nonce, 32)];
    FlattenFive(BigEndian(event.committee, 32), BigEndian(event.token, 32), BigEndian(event.amount, 32),
                BigEndian(event.receiver, 32), BigEndian(event.nonce, 32));
    vote := (Keccak(bytes), event);
  }
}
