/** Signature checking and transaction execution of the Gnosis Safe. */
module SafeQuorum {
  import opened Prelude
  import opened Bytes
  import Requests
  import opened SentinelList
  import Owners = SafeOwners

  /** Hashes the Safe computes, kept as the (injective) record of the words that were hashed. */
  datatype Hash = Hash(words: seq<Word>)
  datatype Word = Num(value: U256) | Sub(hash: Hash) | Blob(raw: seq<byte>)

  datatype Code = GS020 | GS021 | GS022 | GS023 | GS024 | GS025 | GS026

  /** Key recovery (plain or over the eth_sign prefix) and EIP-1271 validation by contract owners. */
  datatype Crypto = Crypto(
    recover: (Hash, bool, nat, Bytes32, Bytes32) -> Address,
    validates: (Address, Hash, seq<byte>) -> bool)

  /** The hash to be signed, the data shown to contract owners (named by its own hash), the submitter,
      and which hashes owners approved on chain. */
  datatype Proposal = Proposal(hash: Hash, data: Hash, sender: Address, approvedHashes: set<(Address, Hash)>)

  // ----- signatureSplit

  /** Word loads at byte offsets 0x20, 0x40 and 0x41 past the start of the slot; v is the low byte of
      the last one. */
  function SignatureSplit(signatures: seq<byte>, pos: nat): (vrs: (nat, Bytes32, Bytes32))
    requires 65 * pos + 65 <= |signatures|
  {
    (Requests.ReadWord(signatures, 65 * pos + 33) % 256, Requests.ReadWord(signatures, 65 * pos),
     Requests.ReadWord(signatures, 65 * pos + 32))
  }

  /** The overlapping loads read exactly the 65 bytes {r}{s}{v} of the slot. */
  lemma SplitLayout(signatures: seq<byte>, pos: nat)
    requires 65 * pos + 65 <= |signatures|
    ensures var (v, r, s) := SignatureSplit(signatures, pos);
            signatures[65 * pos..65 * pos + 65] == BigEndian(r, 32) + BigEndian(s, 32) + [v]
  {
    var slot := 65 * pos;
    var (v, r, s) := SignatureSplit(signatures, pos);
    FromBigEndianRoundTrip(signatures[slot..slot + 32]);
    FromBigEndianRoundTrip(signatures[slot + 32..slot + 64]);
    var last := signatures[slot + 33..slot + 65];
    assert v == FromBigEndian(last) % 256 == last[31] == signatures[slot + 64];
    assert signatures[slot..slot + 65]
           == signatures[slot..slot + 32] + signatures[slot + 32..slot + 64] + [signatures[slot + 64]];
  }

  // ----- checkNSignatures

  /** The owner a slot speaks for, or the reason it is refused. */
  function Signer(c: Crypto, q: Proposal, signatures: seq<byte>, n: nat, i: nat): Result<Address, Code>
    requires 65 * n <= |signatures| && i < n
  {
    var (v, r, s) := SignatureSplit(signatures, i);
    if v == 0 then
      if s < 65 * n then Err(GS021)
      else if s + 32 > |signatures| then Err(GS022)
      else
        var len := Requests.ReadWord(signatures, s);
        if s + 32 + len > |signatures| then Err(GS023)
        else if !c.validates(ToAddress(r), q.data, signatures[s + 32..s + 32 + len]) then Err(GS024)
        else Ok(ToAddress(r))
    else if v == 1 then
      if q.sender == ToAddress(r) || (ToAddress(r), q.hash) in q.approvedHashes then Ok(ToAddress(r)) else Err(GS025)
    else if v > 30 then Ok(c.recover(q.hash, true, v - 4, r, s))
    else Ok(c.recover(q.hash, false, v, r, s))
  }

  /** What all slots say. */
  ghost function Readings(c: Crypto, q: Proposal, signatures: seq<byte>, n: nat): seq<Result<Address, Code>>
    requires 65 * n <= |signatures|
  {
    seq(n, i requires 0 <= i < n => Signer(c, q, signatures, n, i))
  }

  /** They name current owners, in strictly increasing order. */
  ghost predicate Ascending(readings: seq<Result<Address, Code>>, owners: seq<Address>) {
    && (forall i :: 0 <= i < |readings| ==> readings[i].Ok? && readings[i].value in owners)
    && (forall i, j :: 0 <= i < j < |readings| ==> readings[i].value < readings[j].value)
  }

  ghost predicate Accepts(c: Crypto, q: Proposal, signatures: seq<byte>, n: nat, owners: seq<Address>) {
    65 * n <= |signatures| && Ascending(Readings(c, q, signatures, n), owners)
  }

  /** The loop compares neighbours only; that is enough for all slots to be in order, and every slot
      it reads lies inside the buffer. */
  method CheckNSignatures(c: Crypto, q: Proposal, signatures: seq<byte>, n: nat, links: Links,
                          ghost owners: seq<Address>)
    returns (r: Result<(), Code>)
    requires Linked(links, owners)
    ensures r.Ok? <==> Accepts(c, q, signatures, n, owners)
  {
    if |signatures| < 65 * n { return Err(GS020); }
    ghost var readings := Readings(c, q, signatures, n);
    var lastOwner := ZERO;
    for i := 0 to n
      invariant Ascending(readings[..i], owners)
      invariant if i == 0 then lastOwner == ZERO else readings[i - 1] == Ok(lastOwner)
    {
      var signer := ReadSlot(c, q, signatures, n, i);
      OneMoreSlot(readings, owners, i);
      if signer.Err? { return Err(signer.error); }
      OwnerTest(links, owners, signer.value);
      if signer.value <= lastOwner || At(links, signer.value) == ZERO || signer.value == SENTINEL {
        return Err(GS026);
      }
      lastOwner := signer.value;
    }
    assert readings[..n] == readings;
    return Ok(());
  }

  method ReadSlot(c: Crypto, q: Proposal, signatures: seq<byte>, n: nat, i: nat) returns (signer: Result<Address, Code>)
    requires 65 * n <= |signatures| && i < n
    ensures signer == Readings(c, q, signatures, n)[i]
  {
    signer := Signer(c, q, signatures, n, i);
  }

  /** A slot extends the order if it names an owner above the previous one, and breaks it otherwise. */
  lemma OneMoreSlot(readings: seq<Result<Address, Code>>, owners: seq<Address>, i: nat)
    requires i < |readings| && Ascending(readings[..i], owners)
    ensures var fits := readings[i].Ok? && readings[i].value in owners
                        && (i > 0 ==> readings[i - 1].Ok? && readings[i - 1].value < readings[i].value);
            (fits ==> Ascending(readings[..i + 1], owners)) && (!fits ==> !Ascending(readings, owners))
  {
    assert forall k :: 0 <= k < i ==> readings[..i][k] == readings[k];
    assert readings[..i + 1] == readings[..i] + [readings[i]];
    if i > 0 {
      assert readings[i - 1] == readings[..i][i - 1];
    }
  }

  lemma OwnerTest(links: Links, owners: seq<Address>, a: Address)
    requires Linked(links, owners)
    ensures At(links, a) != ZERO && a != SENTINEL <==> a in owners
    ensures a in owners ==> a > ZERO
  {
    if a != SENTINEL {
      MemberIsLinked(links, owners, a);
    }
  }

  // ----- what acceptance means

  /** The 65 bytes of slot `i` spell r, s and v. */
  ghost predicate Presents(signatures: seq<byte>, i: nat, v: byte, r: Bytes32, s: Bytes32) {
    65 * i + 65 <= |signatures| && signatures[65 * i..65 * i + 65] == BigEndian(r, 32) + BigEndian(s, 32) + [v]
  }

  /** A length-prefixed signature that lies behind the slots, inside the buffer. */
  ghost predicate TailAt(signatures: seq<byte>, n: nat, s: Bytes32, tail: seq<byte>) {
    && 65 * n <= s && s + 32 + |tail| <= |signatures|
    && signatures[s..s + 32] == BigEndian(|tail|, 32) && signatures[s + 32..s + 32 + |tail|] == tail
  }

  /** The owner approved this hash by what slot `i` of the given buffer presents: a contract signature
      carried behind the slots, an approval on chain (or being the sender), or a key signature over
      the hash, prefixed for eth_sign or plain. */
  ghost predicate ApprovesBy(c: Crypto, q: Proposal, signatures: seq<byte>, n: nat, owner: Address,
                             i: nat, v: byte, r: Bytes32, s: Bytes32) {
    && i < n && Presents(signatures, i, v, r, s)
    && match v
       case 0 =>
         && r % ADDRESS_LIMIT == owner
         && exists tail :: TailAt(signatures, n, s, tail) && c.validates(owner, q.data, tail)
       case 1 => r % ADDRESS_LIMIT == owner && (q.sender == owner || (owner, q.hash) in q.approvedHashes)
       case _ => owner == if v > 30 then c.recover(q.hash, true, v - 4, r, s) else c.recover(q.hash, false, v, r, s)
  }

  ghost predicate SlotApproves(c: Crypto, q: Proposal, signatures: seq<byte>, n: nat, i: nat, owner: Address) {
    exists v, r, s :: ApprovesBy(c, q, signatures, n, owner, i, v, r, s)
  }

  ghost predicate Approved(c: Crypto, q: Proposal, signatures: seq<byte>, n: nat, owner: Address) {
    exists i :: SlotApproves(c, q, signatures, n, i, owner)
  }

  lemma TailIsRead(signatures: seq<byte>, n: nat, s: Bytes32)
    requires 65 * n <= s && s + 32 <= |signatures| && s + 32 + Requests.ReadWord(signatures, s) <= |signatures|
    ensures TailAt(signatures, n, s, signatures[s + 32..s + 32 + Requests.ReadWord(signatures, s)])
  {
    FromBigEndianRoundTrip(signatures[s..s + 32]);
  }

  lemma SignerApproved(c: Crypto, q: Proposal, signatures: seq<byte>, n: nat, i: nat)
    requires 65 * n <= |signatures| && i < n && Signer(c, q, signatures, n, i).Ok?
    ensures SlotApproves(c, q, signatures, n, i, Signer(c, q, signatures, n, i).value)
  {
    var (v, r, s) := SignatureSplit(signatures, i);
    var owner := Signer(c, q, signatures, n, i).value;
    SplitLayout(signatures, i);
    if v == 0 {
      var len := Requests.ReadWord(signatures, s);
      TailIsRead(signatures, n, s);
      assert c.validates(owner, q.data, signatures[s + 32..s + 32 + len]);
    }
    assert ApprovesBy(c, q, signatures, n, owner, i, v, r, s);
  }

  /** The bytes of a slot determine what it presents. */
  lemma PresentedOnce(signatures: seq<byte>, i: nat, v: byte, r: Bytes32, s: Bytes32)
    requires Presents(signatures, i, v, r, s)
    ensures SignatureSplit(signatures, i) == (v, r, s)
  {
    SplitLayout(signatures, i);
    var (v', r', s') := SignatureSplit(signatures, i);
    SlotParts(BigEndian(r', 32), BigEndian(s', 32), v', BigEndian(r, 32), BigEndian(s, 32), v);
    Widths();
    BigEndianRoundTrip(r, 32);
    BigEndianRoundTrip(r', 32);
    BigEndianRoundTrip(s, 32);
    BigEndianRoundTrip(s', 32);
  }

  lemma TailDetermined(signatures: seq<byte>, n: nat, s: Bytes32, tail: seq<byte>)
    requires TailAt(signatures, n, s, tail) && |tail| < U256_LIMIT
    ensures Requests.ReadWord(signatures, s) == |tail|
  {
    Widths();
    BigEndianRoundTrip(|tail|, 32);
  }

  /** A slot speaks for an owner exactly if it carries that owner's approval. */
  lemma SlotSpeaksFor(c: Crypto, q: Proposal, signatures: seq<byte>, n: nat, i: nat, owner: Address)
    requires 65 * n <= |signatures| < U256_LIMIT && i < n
    ensures Signer(c, q, signatures, n, i) == Ok(owner) <==> SlotApproves(c, q, signatures, n, i, owner)
  {
    if Signer(c, q, signatures, n, i) == Ok(owner) {
      SignerApproved(c, q, signatures, n, i);
    }
    if SlotApproves(c, q, signatures, n, i, owner) {
      var v, r, s :| ApprovesBy(c, q, signatures, n, owner, i, v, r, s);
      PresentedOnce(signatures, i, v, r, s);
      if v == 0 {
        var tail :| TailAt(signatures, n, s, tail) && c.validates(owner, q.data, tail);
        TailDetermined(signatures, n, s, tail);
      }
    }
  }

  /** Acceptance, from the bytes alone: the i-th slot carries the approval of the i-th of some owners in
      strictly increasing order. */
  lemma AcceptedIff(c: Crypto, q: Proposal, signatures: seq<byte>, n: nat, owners: seq<Address>)
    requires |signatures| < U256_LIMIT
    ensures Accepts(c, q, signatures, n, owners) <==>
              65 * n <= |signatures| && exists names :: ApprovedInOrder(c, q, signatures, n, owners, names)
  {
    if Accepts(c, q, signatures, n, owners) {
      var readings := Readings(c, q, signatures, n);
      var names := seq(n, i requires 0 <= i < n => readings[i].value);
      forall i | 0 <= i < n ensures SlotApproves(c, q, signatures, n, i, names[i]) {
        assert readings[i].Ok?;
        SlotSpeaksFor(c, q, signatures, n, i, names[i]);
      }
      assert ApprovedInOrder(c, q, signatures, n, owners, names);
    } else if 65 * n <= |signatures| && exists names :: ApprovedInOrder(c, q, signatures, n, owners, names) {
      var names :| ApprovedInOrder(c, q, signatures, n, owners, names);
      var readings := Readings(c, q, signatures, n);
      forall i | 0 <= i < n ensures readings[i] == Ok(names[i]) {
        assert SlotApproves(c, q, signatures, n, i, names[i]);
        SlotSpeaksFor(c, q, signatures, n, i, names[i]);
      }
      NamesAscend(readings, names, owners);
    }
  }

  ghost predicate ApprovedInOrder(c: Crypto, q: Proposal, signatures: seq<byte>, n: nat, owners: seq<Address>,
                                  names: seq<Address>) {
    && |names| == n
    && (forall i :: 0 <= i < n ==> names[i] in owners && SlotApproves(c, q, signatures, n, i, names[i]))
    && (forall i, j :: 0 <= i < j < n ==> names[i] < names[j])
  }

  /** Distinct quorum: acceptance means that `n` different current owners approved the hash, each by a
      slot of the very buffer that was checked. */
  lemma QuorumSound(c: Crypto, q: Proposal, signatures: seq<byte>, n: nat, owners: seq<Address>)
    requires Accepts(c, q, signatures, n, owners)
    ensures exists signers: set<Address> :: |signers| == n && signers <= Elements(owners)
                                            && forall o :: o in signers ==> Approved(c, q, signatures, n, o)
  {
    var readings := Readings(c, q, signatures, n);
    var names := seq(n, i requires 0 <= i < n => readings[i].value);
    forall i | 0 <= i < n ensures Approved(c, q, signatures, n, names[i]) && names[i] in owners {
      assert readings[i].Ok?;
      SignerApproved(c, q, signatures, n, i);
      assert SlotApproves(c, q, signatures, n, i, names[i]);
    }
    DistinctCardinality(names);
    var signers := Elements(names);
    assert |signers| == n && signers <= Elements(owners);
  }

  // ----- a quorum of on-chain approvals can always be presented

  function Prevalidated(owners: seq<Address>): (b: seq<byte>)
    ensures |b| == 65 * |owners|
  {
    if owners == [] then [] else
      Prevalidated(owners[..|owners| - 1]) + BigEndian(owners[|owners| - 1], 32) + BigEndian(0, 32) + [1]
  }

  lemma {:induction false} PrevalidatedSlot(owners: seq<Address>, i: nat)
    requires i < |owners|
    ensures Prevalidated(owners)[65 * i..65 * i + 65] == BigEndian(owners[i], 32) + BigEndian(0, 32) + [1]
  {
    var front := owners[..|owners| - 1];
    if i < |front| {
      PrevalidatedSlot(front, i);
      assert Prevalidated(owners)[65 * i..65 * i + 65] == Prevalidated(front)[65 * i..65 * i + 65];
    }
  }

  lemma PrevalidatedSplit(signers: seq<Address>, i: nat)
    requires i < |signers|
    ensures var (v, r, s) := SignatureSplit(Prevalidated(signers), i); v == 1 && r == signers[i]
  {
    var b := Prevalidated(signers);
    PrevalidatedSlot(signers, i);
    SplitLayout(b, i);
    var (v, r, s) := SignatureSplit(b, i);
    SlotParts(BigEndian(r, 32), BigEndian(s, 32), v, BigEndian(signers[i], 32), BigEndian(0, 32), 1);
    Widths();
    BigEndianRoundTrip(r, 32);
    BigEndianRoundTrip(signers[i], 32);
  }

  lemma SlotParts(r: seq<byte>, s: seq<byte>, v: byte, r': seq<byte>, s': seq<byte>, v': byte)
    requires |r| == |r'| == 32 && |s| == |s'| == 32 && r + s + [v] == r' + s' + [v']
    ensures r == r' && s == s' && v == v'
  {
    assert r == (r + s + [v])[..32] == (r' + s' + [v'])[..32] == r';
    assert s == (r + s + [v])[32..64] == (r' + s' + [v'])[32..64] == s';
    assert v == (r + s + [v])[64] == (r' + s' + [v'])[64] == v';
  }

  lemma PrevalidatedSigner(c: Crypto, q: Proposal, signers: seq<Address>, i: nat)
    requires i < |signers| && (q.sender == signers[i] || (signers[i], q.hash) in q.approvedHashes)
    ensures Signer(c, q, Prevalidated(signers), |signers|, i) == Ok(signers[i])
  {
    PrevalidatedSplit(signers, i);
    ApprovalSlot(c, q, Prevalidated(signers), |signers|, i, signers[i]);
  }

  lemma ApprovalSlot(c: Crypto, q: Proposal, signatures: seq<byte>, n: nat, i: nat, a: Address)
    requires 65 * n <= |signatures| && i < n && SignatureSplit(signatures, i).0 == 1
             && SignatureSplit(signatures, i).1 == a
    requires q.sender == a || (a, q.hash) in q.approvedHashes
    ensures Signer(c, q, signatures, n, i) == Ok(a)
  {
    assert ToAddress(a) == a;
  }

  lemma NamesAscend(readings: seq<Result<Address, Code>>, names: seq<Address>, owners: seq<Address>)
    requires |readings| == |names| && forall i :: 0 <= i < |names| ==> readings[i] == Ok(names[i])
    requires forall i :: 0 <= i < |names| ==> names[i] in owners
    requires forall i, j :: 0 <= i < j < |names| ==> names[i] < names[j]
    ensures Ascending(readings, owners)
  {
  }

  /** Completeness: owners listed in increasing order, each the sender or pre-approved, pass the check
      with one slot of type 1 each. */
  lemma ApprovedQuorumPasses(c: Crypto, q: Proposal, owners: seq<Address>, signers: seq<Address>)
    requires forall i :: 0 <= i < |signers| ==> signers[i] in owners
    requires forall i :: 0 <= i < |signers| ==> q.sender == signers[i] || (signers[i], q.hash) in q.approvedHashes
    requires forall i, j :: 0 <= i < j < |signers| ==> signers[i] < signers[j]
    ensures Accepts(c, q, Prevalidated(signers), |signers|, owners)
  {
    var readings := Readings(c, q, Prevalidated(signers), |signers|);
    forall i | 0 <= i < |signers| ensures readings[i] == Ok(signers[i]) {
      PrevalidatedSigner(c, q, signers, i);
    }
    NamesAscend(readings, signers, owners);
  }

  // ----- execTransaction

  const SAFE_TX_TYPEHASH: U256 := 0xbb8310d486368db6bd6f849402fdd73ad53d316b5a4b2644ad6efe0f941286d8

  datatype Tx = Tx(to: Address, value: U256, data: seq<byte>, operation: U256, safeTxGas: U256, baseGas: U256,
                   gasPrice: U256, gasToken: Address, refundReceiver: Address)

  const DOMAIN_SEPARATOR_TYPEHASH: U256 := 0x47e79534a245952e8b16893a336b85a3d9ea9fa8c573f3d803afb92a79469218

  /** `domainSeparator`: binds what is signed to one chain and one Safe. */
  function DomainSeparator(chainId: U256, self: Address): Hash {
    Hash([Num(DOMAIN_SEPARATOR_TYPEHASH), Num(chainId), Num(self)])
  }

  /** The struct hash inside `encodeTransactionData`. */
  function StructHash(tx: Tx, nonce: U256): Hash {
    Hash([Num(SAFE_TX_TYPEHASH), Num(tx.to), Num(tx.value), Sub(Hash([Blob(tx.data)])), Num(tx.operation),
          Num(tx.safeTxGas), Num(tx.baseGas), Num(tx.gasPrice), Num(tx.gasToken), Num(tx.refundReceiver), Num(nonce)])
  }

  /** `getTransactionHash` */
  function TransactionHash(domain: Hash, tx: Tx, nonce: U256): Hash {
    Hash([Num(0x1901), Sub(domain), Sub(StructHash(tx, nonce))])
  }

  /** Where each field stands, in the order of the EIP-712 type string of a Safe transaction. */
  lemma HashLayout(domain: Hash, tx: Tx, nonce: U256)
    ensures var words := TransactionHash(domain, tx, nonce).words;
            && |words| == 3 && words[0] == Num(0x1901) && words[1] == Sub(domain) && words[2].Sub?
            && var fields := words[2].hash.words;
               && |fields| == 11 && fields[0] == Num(SAFE_TX_TYPEHASH)
               && fields[1] == Num(tx.to) && fields[2] == Num(tx.value) && fields[3] == Sub(Hash([Blob(tx.data)]))
               && fields[4] == Num(tx.operation) && fields[5] == Num(tx.safeTxGas) && fields[6] == Num(tx.baseGas)
               && fields[7] == Num(tx.gasPrice) && fields[8] == Num(tx.gasToken)
               && fields[9] == Num(tx.refundReceiver) && fields[10] == Num(nonce)
  {
  }

  /** A hash belongs to one transaction under one nonce in one domain: signatures for it are good for
      nothing else. */
  lemma HashInjective(d: Hash, tx: Tx, n: U256, d': Hash, tx': Tx, n': U256)
    requires TransactionHash(d, tx, n) == TransactionHash(d', tx', n')
    ensures d == d' && tx == tx' && n == n'
  {
    HashLayout(d, tx, n);
    HashLayout(d', tx', n');
    assert [Blob(tx.data)][0] == [Blob(tx'.data)][0];
  }

  lemma DomainInjective(chainId: U256, self: Address, chainId': U256, self': Address)
    requires DomainSeparator(chainId, self) == DomainSeparator(chainId', self')
    ensures chainId == chainId' && self == self'
  {
    assert DomainSeparator(chainId, self).words[1] == Num(chainId)
           && DomainSeparator(chainId, self).words[2] == Num(self);
    assert DomainSeparator(chainId', self').words[1] == Num(chainId');
    assert DomainSeparator(chainId', self').words[2] == Num(self');
  }

  /** An executed transaction: what was checked for it, and the owners and threshold at that moment. */
  datatype Execution = Execution(
    tx: Tx, proposal: Proposal, signatures: seq<byte>, threshold: nat, owners: seq<Address>)

  datatype Safe = Safe(
    self: Address, chainId: U256, nonce: U256, owners: seq<Address>, threshold: nat,
    approvedHashes: set<(Address, Hash)>, executed: seq<Execution>)

  function Domain(s: Safe): Hash {
    DomainSeparator(s.chainId, s.self)
  }

  /** The record of a transaction that is about to be executed. */
  function Record(s: Safe, sender: Address, tx: Tx, signatures: seq<byte>): Execution {
    var hash := TransactionHash(Domain(s), tx, s.nonce);
    Execution(tx, Proposal(hash, hash, sender, s.approvedHashes), signatures, s.threshold, s.owners)
  }

  function Started(s: Safe, e: Execution): Safe
    requires s.nonce + 1 < U256_LIMIT
  {
    s.(nonce := s.nonce + 1, executed := s.executed + [e])
  }

  /** What happens to a Safe. An execution carries the actions performed while its call is running: owner
      operations that the Safe calls on itself, and whatever re-enters it; the call succeeds or is
      rolled back as a whole. */
  datatype Action =
    | Execute(sender: Address, tx: Tx, signatures: seq<byte>, during: seq<Action>, success: bool)
    | ApproveHash(approver: Address, approvedHash: Hash)
    | Govern(caller: Address, op: Owners.Op)

  ghost function Perform(c: Crypto, s: Safe, a: Action): Safe
    decreases a, 1
  {
    match a
    case ApproveHash(owner, h) =>
      if owner in s.owners || owner == SENTINEL then s.(approvedHashes := s.approvedHashes + {(owner, h)}) else s
    case Govern(caller, op) =>
      var (owners, threshold) := Owners.Changed(s.owners, s.threshold, s.self, caller, op);
      s.(owners := owners, threshold := threshold)
    case Execute(sender, tx, signatures, during, success) =>
      var e := Record(s, sender, tx, signatures);
      if s.nonce + 1 >= U256_LIMIT || s.threshold == 0
         || !Accepts(c, e.proposal, signatures, s.threshold, s.owners) then s
      else if !success && tx.safeTxGas == 0 && tx.gasPrice == 0 then s
      else if success then PerformAll(c, Started(s, e), during)  // the nonce is taken before the call
      else Started(s, e)
  }

  ghost function PerformAll(c: Crypto, s: Safe, actions: seq<Action>): Safe
    decreases actions, 0
  {
    if actions == [] then s else PerformAll(c, Perform(c, s, actions[0]), actions[1..])
  }

  /** The record is of this transaction under this nonce. */
  ghost predicate Numbered(domain: Hash, e: Execution, n: nat) {
    n < U256_LIMIT && e.proposal.hash == TransactionHash(domain, e.tx, n)
  }

  /** The signatures presented were accepted from the owners of the moment. */
  ghost predicate Certified(c: Crypto, e: Execution) {
    e.threshold >= 1 && Accepts(c, e.proposal, e.signatures, e.threshold, e.owners)
  }

  /** The quorum behind an execution: as many different owners as the threshold says, each with a slot. */
  ghost predicate HadQuorum(c: Crypto, e: Execution) {
    exists signers: set<Address> :: |signers| == e.threshold && signers <= Elements(e.owners)
      && forall o :: o in signers ==> Approved(c, e.proposal, e.signatures, e.threshold, o)
  }

  ghost predicate SameSafe(s: Safe, s': Safe) {
    s'.chainId == s.chainId && s'.self == s.self
  }

  ghost predicate Orderly(c: Crypto, s: Safe) {
    && |s.executed| == s.nonce
    && forall i :: 0 <= i < |s.executed| ==> Numbered(Domain(s), s.executed[i], i) && Certified(c, s.executed[i])
  }

  /** Exactly which executions go through: a threshold of at least one, signatures that are accepted for
      the hash of this transaction under the current nonce, and a call that succeeds unless the gas
      parameters allow it to fail. */
  ghost predicate MayExecute(c: Crypto, s: Safe, a: Action)
    requires a.Execute?
  {
    var hash := TransactionHash(DomainSeparator(s.chainId, s.self), a.tx, s.nonce);
    && s.nonce + 1 < U256_LIMIT && s.threshold >= 1
    && Accepts(c, Proposal(hash, hash, a.sender, s.approvedHashes), a.signatures, s.threshold, s.owners)
    && (a.success || a.tx.safeTxGas != 0 || a.tx.gasPrice != 0)
  }

  /** An execution that may not go through changes nothing. One that does takes the nonce and is logged as
      judged by the owners, threshold and approvals of the state it started in, whatever its own call
      then changes; a call that fails changes nothing else. */
  lemma {:induction false} ExecutionIsLogged(c: Crypto, s: Safe, a: Action)
    requires Orderly(c, s) && a.Execute?
    ensures !MayExecute(c, s, a) ==> Perform(c, s, a) == s
    ensures MayExecute(c, s, a) ==>
              var (s', n) := (Perform(c, s, a), |s.executed|);
              && |s'.executed| > n && s'.nonce > s.nonce
              && s'.executed[n].tx == a.tx && s'.executed[n].signatures == a.signatures
              && s'.executed[n].owners == s.owners && s'.executed[n].threshold == s.threshold
              && s'.executed[n].proposal.sender == a.sender
              && s'.executed[n].proposal.approvedHashes == s.approvedHashes
              && (!a.success ==> s' == s.(nonce := s.nonce + 1, executed := s'.executed) && |s'.executed| == n + 1)
  {
    if MayExecute(c, s, a) {
      var e := Record(s, a.sender, a.tx, a.signatures);
      assert Numbered(Domain(s), e, s.nonce) && Certified(c, e);
      if a.success {
        PerformAllOrderly(c, Started(s, e), a.during);
      }
    }
  }

  lemma {:induction false} PerformOrderly(c: Crypto, s: Safe, a: Action)
    requires Orderly(c, s)
    ensures Orderly(c, Perform(c, s, a)) && SameSafe(s, Perform(c, s, a)) && s.executed <= Perform(c, s, a).executed
    decreases a, 1
  {
    match a
    case ApproveHash(_, _) =>
    case Govern(_, _) =>
    case Execute(sender, tx, signatures, during, success) =>
      var e := Record(s, sender, tx, signatures);
      if s.nonce + 1 < U256_LIMIT && Certified(c, e) {
        assert Numbered(Domain(s), e, s.nonce);
        PerformAllOrderly(c, Started(s, e), during);
      }
  }

  lemma {:induction false} PerformAllOrderly(c: Crypto, s: Safe, actions: seq<Action>)
    requires Orderly(c, s)
    ensures var s' := PerformAll(c, s, actions); Orderly(c, s') && SameSafe(s, s') && s.executed <= s'.executed
    decreases actions, 0
  {
    if actions != [] {
      PerformOrderly(c, s, actions[0]);
      PerformAllOrderly(c, Perform(c, s, actions[0]), actions[1..]);
    }
  }

  /** No replay: over any actions, re-entrant ones included, the executed transactions carry the nonces
      0, 1, 2, ... in order, so no signed hash is ever executed twice. */
  lemma NoReplay(c: Crypto, s: Safe, actions: seq<Action>, i: nat, j: nat)
    requires s.nonce == 0 && s.executed == []
    requires i < j < |PerformAll(c, s, actions).executed|
    ensures var log := PerformAll(c, s, actions).executed;
            && Numbered(Domain(s), log[i], i) && Numbered(Domain(s), log[j], j)
            && log[i].proposal.hash != log[j].proposal.hash
  {
    PerformAllOrderly(c, s, actions);
    var log := PerformAll(c, s, actions).executed;
    assert Numbered(Domain(s), log[i], i) && Numbered(Domain(s), log[j], j);
    HashLayout(Domain(s), log[i].tx, i);
    HashLayout(Domain(s), log[j].tx, j);
  }

  /** The hash that was signed stands for this transaction, this nonce and this Safe on this chain, and for
      nothing else. */
  ghost predicate SignedFor(s: Safe, e: Execution, n: nat) {
    && n < U256_LIMIT && e.proposal.hash == TransactionHash(DomainSeparator(s.chainId, s.self), e.tx, n)
    && forall d, tx, m: U256 :: TransactionHash(d, tx, m) == e.proposal.hash ==> d == Domain(s) && tx == e.tx && m == n
  }

  /** Every transaction ever executed was approved, by slots of the signatures presented with it, by as
      many different owners of that moment as the threshold then said; and the hash they approved is of
      that very transaction under its own nonce, and of no other. */
  lemma EveryExecutionHadQuorum(c: Crypto, s: Safe, actions: seq<Action>, i: nat)
    requires s.nonce == 0 && s.executed == [] && i < |PerformAll(c, s, actions).executed|
    ensures var e := PerformAll(c, s, actions).executed[i];
            e.threshold >= 1 && SignedFor(s, e, i) && HadQuorum(c, e)
  {
    PerformAllOrderly(c, s, actions);
    var e := PerformAll(c, s, actions).executed[i];
    assert Numbered(Domain(s), e, i) && Certified(c, e);
    SignedOnce(s, e, i);
    QuorumSound(c, e.proposal, e.signatures, e.threshold, e.owners);
  }

  lemma SignedOnce(s: Safe, e: Execution, n: nat)
    requires Numbered(Domain(s), e, n)
    ensures SignedFor(s, e, n)
  {
    forall d, tx, m: U256 | TransactionHash(d, tx, m) == e.proposal.hash
      ensures d == Domain(s) && tx == e.tx && m == n
    {
      HashInjective(d, tx, m, Domain(s), e.tx, n);
    }
  }

  // ----- approvals on chain

  /** Approving is for owners (and the sentinel, which has a link), and adds the caller's own approval. */
  lemma ApprovalMeans(c: Crypto, s: Safe, a: Action)
    requires a.ApproveHash?
    ensures var s' := Perform(c, s, a);
            && s' == s.(approvedHashes := s'.approvedHashes)
            && forall o, h :: (o, h) in s'.approvedHashes <==>
                 || (o, h) in s.approvedHashes
                 || (o == a.approver && h == a.approvedHash && (o in s.owners || o == SENTINEL))
  {
  }

  /** The action is, or contains, this account's call to approve this hash. */
  ghost predicate Approving(a: Action, o: Address, h: Hash) {
    match a
    case ApproveHash(approver, approvedHash) => approver == o && approvedHash == h
    case Execute(_, _, _, during, _) => exists i :: 0 <= i < |during| && Approving(during[i], o, h)
    case Govern(_, _) => false
  }

  lemma {:induction false} PerformApproves(c: Crypto, s: Safe, a: Action, o: Address, h: Hash)
    requires (o, h) in Perform(c, s, a).approvedHashes && (o, h) !in s.approvedHashes
    ensures Approving(a, o, h)
    decreases a, 1
  {
    match a
    case ApproveHash(_, _) =>
    case Govern(_, _) =>
    case Execute(sender, tx, signatures, during, success) =>
      NobodyApprovesForAnother(c, Started(s, Record(s, sender, tx, signatures)), during, o, h);
  }

  /** Over any run, an approval on record was there before or was made by that account itself. */
  lemma {:induction false} NobodyApprovesForAnother(c: Crypto, s: Safe, actions: seq<Action>, o: Address, h: Hash)
    requires (o, h) in PerformAll(c, s, actions).approvedHashes && (o, h) !in s.approvedHashes
    ensures exists i :: 0 <= i < |actions| && Approving(actions[i], o, h)
    decreases actions, 0
  {
    if actions != [] {
      var s' := Perform(c, s, actions[0]);
      if (o, h) in s'.approvedHashes {
        PerformApproves(c, s, actions[0], o, h);
      } else {
        NobodyApprovesForAnother(c, s', actions[1..], o, h);
        var i :| 0 <= i < |actions[1..]| && Approving(actions[1..][i], o, h);
        assert actions[i + 1] == actions[1..][i];
      }
    }
  }

  // ----- who changes the owners

  /** Only the Safe calls itself, and it does so only while it executes a transaction. */
  ghost predicate FromOutside(s: Safe, a: Action) {
    a.Govern? ==> a.caller != s.self
  }

  /** An action that changes owners or threshold is an execution that a quorum of the owners it found
      approved. */
  lemma OwnersChangeByQuorum(c: Crypto, s: Safe, a: Action)
    requires Orderly(c, s) && FromOutside(s, a)
    requires Perform(c, s, a).owners != s.owners || Perform(c, s, a).threshold != s.threshold
    ensures a.Execute? && |Perform(c, s, a).executed| > |s.executed|
    ensures var e := Perform(c, s, a).executed[|s.executed|];
            && e.owners == s.owners && e.threshold == s.threshold >= 1 && HadQuorum(c, e)
            && e.tx == a.tx && SignedFor(s, e, s.nonce)
  {
    assert a.Execute?;
    var e := Record(s, a.sender, a.tx, a.signatures);
    assert Numbered(Domain(s), e, s.nonce) && Certified(c, e);
    PerformAllOrderly(c, Started(s, e), a.during);
    SignedOnce(s, e, s.nonce);
    QuorumSound(c, e.proposal, a.signatures, s.threshold, s.owners);
  }

  lemma {:induction false} PerformAllInTwo(c: Crypto, s: Safe, a: seq<Action>, b: seq<Action>)
    ensures PerformAll(c, s, a + b) == PerformAll(c, PerformAll(c, s, a), b)
    decreases |a|
  {
    if a == [] {
      assert a + b == b;
    } else {
      assert (a + b)[1..] == a[1..] + b;
      PerformAllInTwo(c, Perform(c, s, a[0]), a[1..], b);
    }
  }

  /** The state before the i-th action. */
  ghost function Before(c: Crypto, s: Safe, actions: seq<Action>, i: nat): Safe
    requires i <= |actions|
  {
    PerformAll(c, s, actions[..i])
  }

  lemma BeforeNext(c: Crypto, s: Safe, actions: seq<Action>, i: nat)
    requires i < |actions|
    ensures Before(c, s, actions, i + 1) == Perform(c, Before(c, s, actions, i), actions[i])
  {
    assert actions[..i + 1] == actions[..i] + [actions[i]];
    PerformAllInTwo(c, s, actions[..i], [actions[i]]);
    var s' := Before(c, s, actions, i);
    assert [actions[i]][1..] == [];
    assert PerformAll(c, s', [actions[i]]) == PerformAll(c, Perform(c, s', actions[i]), []);
  }

  /** Over any run of actions from outside: wherever owners or threshold change, a quorum of the owners of
      that moment approved the transaction that did it. */
  lemma OwnersChangeOnlyByQuorum(c: Crypto, s: Safe, actions: seq<Action>, i: nat)
    requires s.nonce == 0 && s.executed == [] && i < |actions| && FromOutside(s, actions[i])
    requires var (s1, s2) := (Before(c, s, actions, i), Before(c, s, actions, i + 1));
             s2.owners != s1.owners || s2.threshold != s1.threshold
    ensures var (s1, s2) := (Before(c, s, actions, i), Before(c, s, actions, i + 1));
            && |s2.executed| > |s1.executed|
            && var e := s2.executed[|s1.executed|];
               e.owners == s1.owners && e.threshold == s1.threshold >= 1 && HadQuorum(c, e)
  {
    PerformAllOrderly(c, s, actions[..i]);
    BeforeNext(c, s, actions, i);
    OwnersChangeByQuorum(c, Before(c, s, actions, i), actions[i]);
  }

  lemma {:induction false} PerformStaysGovernable(c: Crypto, s: Safe, a: Action)
    requires Owners.Governable(s.owners, s.threshold, s.self)
    ensures var s' := Perform(c, s, a); s'.self == s.self && Owners.Governable(s'.owners, s'.threshold, s'.self)
    decreases a, 1
  {
    match a
    case ApproveHash(_, _) =>
    case Govern(caller, op) => Owners.ChangedStaysGovernable(s.owners, s.threshold, s.self, caller, op);
    case Execute(sender, tx, signatures, during, success) =>
      if s.nonce + 1 < U256_LIMIT {
        StaysGovernable(c, Started(s, Record(s, sender, tx, signatures)), during);
      }
  }

  /** The Safe can always be governed: whatever happens to it, its owners are distinct and proper and can
      reach the threshold. */
  lemma {:induction false} StaysGovernable(c: Crypto, s: Safe, actions: seq<Action>)
    requires Owners.Governable(s.owners, s.threshold, s.self)
    ensures var s' := PerformAll(c, s, actions);
            s'.self == s.self && Owners.Governable(s'.owners, s'.threshold, s'.self)
    decreases actions, 0
  {
    if actions != [] {
      PerformStaysGovernable(c, s, actions[0]);
      StaysGovernable(c, Perform(c, s, actions[0]), actions[1..]);
    }
  }
}
