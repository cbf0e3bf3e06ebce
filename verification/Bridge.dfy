/** Both contracts together: guardians carry requests across, fewer of them are faulty than any
    threshold in use, and the tokens locked on Ethereum back everything on the other side. */
module Bridge {
  import opened Prelude
  import opened Bytes
  import opened Requests
  import Az = AzeroSpec
  import AzVotes = AzeroVotes
  import Eth = EthereumSpec
  import EthVotes = EthereumVotes
  import AzEffects = AzeroEffects
  import EthEffects = EthereumEffects
  import EthEscrow = EthereumEscrow

  /** Which Ethereum token (as a padded address) is bridged to which Aleph Zero token, and who is faulty. */
  datatype World = World(pairing: map<Bytes32, Bytes32>, faultyAz: set<Az.Account>, faultyEth: set<Address>)

  datatype State = State(az: Az.State, eth: Eth.State)

  datatype Step =
    | OnAzero(azCaller: Az.Account, azCall: Az.Call)
    | OnEthereum(ethCaller: Address, ethCall: Eth.Call)

  ghost predicate OneToOne(pairing: map<Bytes32, Bytes32>) {
    && (forall e :: e in pairing ==> e < ADDRESS_LIMIT)
    && (forall e, f :: e in pairing && f in pairing && pairing[e] == pairing[f] ==> e == f)
  }

  /** The digest is that of a request sent on Ethereum. */
  ghost predicate EmittedOnEthereum(v: Eth.Vault, h: Digest) {
    exists i :: 0 <= i < |v.sent| && FitsU128(v.sent[i].request) && AzDigest(v.sent[i].request) == h
  }

  /** The digest is that of a request sent on Aleph Zero. */
  ghost predicate EmittedOnAzero(t: Az.Tokens, h: Digest) {
    exists i :: 0 <= i < |t.sent| && EthDigest(t.sent[i].request) == h
  }

  /** A vote, of somebody who is not faulty, for a request of a committee that he sits on. */
  ghost predicate HonestVote(w: World, b: State, step: Step) {
    match step
    case OnAzero(caller, c) =>
      c.Receive? && caller !in w.faultyAz && (c.request.committee, caller) in b.az.reg.committees
    case OnEthereum(caller, c) =>
      c.Receive? && caller !in w.faultyEth && Eth.IsInCommittee(b.eth.reg, c.request.committee, caller)
  }

  /** What governance keeps to: it only configures the fixed pairing. */
  ghost predicate Governed(w: World, b: State, step: Step) {
    match step
    case OnAzero(_, c) =>
      && (c.AddPair? ==> c.to in w.pairing && w.pairing[c.to] == c.from)
      && (c.SetCommittee? ==> b.az.reg.committeeId + 1 < U128_LIMIT)
    case OnEthereum(_, c) => c.AddPair? ==> c.from in w.pairing && w.pairing[c.from] == c.to
  }

  /** Guardians that are not faulty vote only for requests the other chain has sent. Everybody else may
      call anything. */
  ghost predicate Allowed(w: World, b: State, step: Step) {
    && Governed(w, b, step)
    && (HonestVote(w, b, step) ==>
          if step.OnAzero? then EmittedOnEthereum(b.eth.vault, step.azCall.digest)
          else EmittedOnAzero(b.az.tokens, step.ethCall.digest))
  }

  ghost function FaultySeats(g: Eth.Registry, c: U256, faulty: set<Address>): set<Address> {
    set a | a in faulty && Eth.IsInCommittee(g, c, a)
  }

  /** Only thresholds in use count. While Aleph Zero is not halted, the active threshold judges the
      requests of this and every earlier committee; while Ethereum is not paused, every committee's
      own threshold judges its requests. */
  ghost predicate Trusted(w: World, b: State) {
    && (!b.az.halted ==>
          forall c: Az.CommitteeId :: c <= b.az.reg.committeeId ==>
            |Az.Members(b.az.reg, c) * w.faultyAz| < Get(b.az.reg.thresholds, b.az.reg.committeeId, 0))
    && (!b.eth.paused ==>
          forall c :: c in b.eth.reg.thresholds ==>
            |FaultySeats(b.eth.reg, c, w.faultyEth)| < b.eth.reg.thresholds[c])
  }

  ghost function Next(b: State, step: Step): State {
    match step
    case OnAzero(caller, c) => b.(az := Az.Next(b.az, caller, c))
    case OnEthereum(caller, c) => b.(eth := Eth.Next(b.eth, caller, c))
  }

  ghost function Run(b: State, steps: seq<Step>): State
    decreases |steps|
  {
    if steps == [] then b else Run(Next(b, steps[0]), steps[1..])
  }

  ghost predicate AllowedRun(w: World, b: State, steps: seq<Step>)
    decreases |steps|
  {
    steps != [] ==> Trusted(w, b) && Allowed(w, b, steps[0]) && AllowedRun(w, Next(b, steps[0]), steps[1..])
  }

  // ----- what is in flight

  function ToAzero(processed: set<Digest>, token: Bytes32): Eth.Lock -> nat {
    (x: Eth.Lock) =>
      if x.request.token != token || (FitsU128(x.request) && AzDigest(x.request) in processed)
      then 0 else x.request.amount
  }

  function ToEthereum(processed: set<Digest>, token: Bytes32): Az.Sent -> nat {
    (x: Az.Sent) => if x.request.token != token || EthDigest(x.request) in processed then 0 else x.request.amount
  }

  /** Locked on Ethereum for an Aleph Zero token and not minted yet. */
  ghost function InFlightToAzero(b: State, token: Bytes32): nat {
    SumBy(b.eth.vault.sent, ToAzero(b.az.votes.processed, token))
  }

  /** Burned on Aleph Zero for an Ethereum token and not released yet. */
  ghost function InFlightToEthereum(b: State, token: Bytes32): nat {
    SumBy(b.az.tokens.sent, ToEthereum(b.eth.votes.processed, token))
  }

  /** Released in name only: the tokens did not reach the receiver and stayed in the escrow. */
  function UndeliveredWeight(token: Address, weth: Address): Eth.Release -> nat {
    (x: Eth.Release) =>
      if ToAddress(x.request.token) == token && !x.delivered && token != weth then x.request.amount else 0
  }

  ghost function Undelivered(s: Eth.State, token: Address): nat {
    SumBy(s.votes.releases, UndeliveredWeight(token, s.vault.weth))
  }

  /** What of an Ethereum token must be there for holders and travellers of its Aleph Zero token. */
  ghost function Owed(b: State, e: Bytes32, a: Bytes32): nat {
    Get(b.az.tokens.supply, a, 0) + InFlightToAzero(b, a) + InFlightToEthereum(b, e)
  }

  /** What came to the escrow, or stopped being owed, besides. */
  ghost function Windfall(b: State, e: Bytes32, a: Bytes32): nat
    requires e < ADDRESS_LIMIT
  {
    Get(b.eth.vault.donated, e, 0) + Get(b.az.tokens.heldBurned, a, 0) + Undelivered(b.eth, e)
  }

  /** The escrow, with what was recovered from it, is exactly what is owed, the windfall and the
      surplus at the beginning. */
  ghost predicate Balanced(b: State, e: Bytes32, a: Bytes32, opening: int)
    requires e < ADDRESS_LIMIT
  {
    Eth.Held(b.eth.vault, e) + Get(b.eth.vault.recovered, e, 0) == Owed(b, e, a) + Windfall(b, e, a) + opening
  }

  // ----- the invariant

  ghost predicate HonestVotes(w: World, b: State) {
    && (forall x :: x in b.az.votes.signatures && x.1 !in w.faultyAz ==> EmittedOnEthereum(b.eth.vault, x.0))
    && (forall x :: x in b.eth.votes.signatures && x.1 !in w.faultyEth ==> EmittedOnAzero(b.az.tokens, x.0))
  }

  ghost predicate AzPairsOk(pairing: map<Bytes32, Bytes32>, t: Az.Tokens) {
    && (forall a :: a in t.pairs ==> t.pairs[a] in pairing && pairing[t.pairs[a]] == a)
    && (forall i :: 0 <= i < |t.sent| ==> t.sent[i].request.token in pairing)
  }

  ghost predicate EthPairsOk(pairing: map<Bytes32, Bytes32>, v: Eth.Vault) {
    forall e :: e in v.pairs ==> e in pairing && pairing[e] == v.pairs[e]
  }

  ghost predicate PairsOk(w: World, b: State) {
    AzPairsOk(w.pairing, b.az.tokens) && EthPairsOk(w.pairing, b.eth.vault)
  }

  /** The surplus of a token at deployment; negative if the escrow does not cover the supply. */
  ghost function Opening(w: World, b0: State, e: Bytes32): int
    requires e in w.pairing && e < ADDRESS_LIMIT
  {
    Eth.Held(b0.eth.vault, e) - Get(b0.az.tokens.supply, w.pairing[e], 0)
  }

  ghost predicate AllBalanced(w: World, b0: State, b: State)
    requires OneToOne(w.pairing)
  {
    forall e :: e in w.pairing ==> Balanced(b, e, w.pairing[e], Opening(w, b0, e))
  }

  /** Everything processed on one chain was sent on the other. */
  ghost predicate NothingForged(b: State) {
    && (forall h :: h in b.az.votes.processed ==> EmittedOnEthereum(b.eth.vault, h))
    && (forall h :: h in b.eth.votes.processed ==> EmittedOnAzero(b.az.tokens, h))
  }

  ghost predicate Inv(w: World, b0: State, b: State) {
    && OneToOne(w.pairing) && AzVotes.WellFormed(b.az) && EthVotes.WellFormed(b.eth)
    && HonestVotes(w, b) && NothingForged(b) && PairsOk(w, b) && AllBalanced(w, b0, b)
  }

  // ----- a processed request was sent

  /** A vote that gets a request minted: signers reach the active threshold, so one of them is honest. */
  lemma AzLandedWasSent(w: World, b: State, caller: Az.Account, c: Az.Call)
    requires AzVotes.WellFormed(b.az) && Trusted(w, b) && c.Receive?
    requires Az.Next(b.az, caller, c).votes.processed != b.az.votes.processed
    requires forall x :: x in Az.Next(b.az, caller, c).votes.signatures && x.1 !in w.faultyAz ==>
               EmittedOnEthereum(b.eth.vault, x.0)
    ensures EmittedOnEthereum(b.eth.vault, c.digest)
  {
    AzEffects.LandingMeans(b.az, caller, c);
    AzVotes.ReceiveEffect(b.az, caller, c);
    var v := Az.Next(b.az, caller, c).votes;
    var (voters, members) := (Az.Voters(v, c.digest), Az.Members(b.az.reg, c.request.committee));
    assert c.request.committee in b.az.reg.thresholds && c.request.committee <= b.az.reg.committeeId;
    SubsetCardinality(voters * w.faultyAz, members * w.faultyAz);
    var honest := OutnumberedHasWitness(voters, w.faultyAz);
    assert (c.digest, honest) in v.signatures;
  }

  lemma EthLandedWasSent(w: World, b: State, caller: Address, c: Eth.Call)
    requires EthVotes.WellFormed(b.eth) && Trusted(w, b) && c.Receive?
    requires Eth.Next(b.eth, caller, c).votes.processed != b.eth.votes.processed
    requires forall x :: x in Eth.Next(b.eth, caller, c).votes.signatures && x.1 !in w.faultyEth ==>
               EmittedOnAzero(b.az.tokens, x.0)
    ensures EmittedOnAzero(b.az.tokens, c.digest)
  {
    EthEffects.LandingMeans(b.eth, caller, c);
    var x := EthVotes.ReceiveEffect(b.eth, caller, c);
    var v := Eth.Next(b.eth, caller, c).votes;
    var voters := Eth.Voters(v, c.digest);
    var suspects := FaultySeats(b.eth.reg, c.request.committee, w.faultyEth);
    assert c.request.committee in b.eth.reg.thresholds;
    SubsetCardinality(voters * w.faultyEth, suspects);
    var honest := OutnumberedHasWitness(voters, w.faultyEth);
    assert (c.digest, honest) in v.signatures;
  }

  // ----- the parts that do not concern amounts

  lemma EmittedStays(b: State, step: Step, h: Digest)
    ensures EmittedOnEthereum(b.eth.vault, h) ==> EmittedOnEthereum(Next(b, step).eth.vault, h)
    ensures EmittedOnAzero(b.az.tokens, h) ==> EmittedOnAzero(Next(b, step).az.tokens, h)
  {
    LogsGrow(b, step);
    if EmittedOnEthereum(b.eth.vault, h) {
      var i :| 0 <= i < |b.eth.vault.sent| && FitsU128(b.eth.vault.sent[i].request)
        && AzDigest(b.eth.vault.sent[i].request) == h;
      assert Next(b, step).eth.vault.sent[i] == b.eth.vault.sent[i];
    }
    if EmittedOnAzero(b.az.tokens, h) {
      var i :| 0 <= i < |b.az.tokens.sent| && EthDigest(b.az.tokens.sent[i].request) == h;
      assert Next(b, step).az.tokens.sent[i] == b.az.tokens.sent[i];
    }
  }

  lemma AzLogGrows(s: Az.State, caller: Az.Account, c: Az.Call)
    ensures s.tokens.sent <= Az.Next(s, caller, c).tokens.sent
  {
    if c.Send? && Az.ApplySend(s, c).Ok? {
      AzVotes.SendEffect(s, c);
    }
  }

  lemma EthLogGrows(s: Eth.State, caller: Address, c: Eth.Call)
    ensures s.vault.sent <= Eth.Next(s, caller, c).vault.sent
  {
  }

  lemma LogsGrow(b: State, step: Step)
    ensures b.eth.vault.sent <= Next(b, step).eth.vault.sent && b.az.tokens.sent <= Next(b, step).az.tokens.sent
  {
    match step
    case OnAzero(caller, c) => AzLogGrows(b.az, caller, c);
    case OnEthereum(caller, c) => EthLogGrows(b.eth, caller, c);
  }

  lemma SignaturesGrow(b: State, step: Step)
    ensures forall x :: x in Next(b, step).az.votes.signatures ==>
              x in b.az.votes.signatures
              || (step.OnAzero? && step.azCall.Receive? && x == (step.azCall.digest, step.azCaller)
                  && (step.azCall.request.committee, step.azCaller) in b.az.reg.committees)
    ensures forall x :: x in Next(b, step).eth.votes.signatures ==>
              x in b.eth.votes.signatures
              || (step.OnEthereum? && step.ethCall.Receive? && x == (step.ethCall.digest, step.ethCaller)
                  && Eth.IsInCommittee(b.eth.reg, step.ethCall.request.committee, step.ethCaller))
  {
    match step
    case OnAzero(caller, c) => Az.Frame(b.az, caller, c);
    case OnEthereum(caller, c) => Eth.Frame(b.eth, caller, c);
  }

  lemma HonestVotesKept(w: World, b: State, step: Step)
    requires HonestVotes(w, b) && Allowed(w, b, step)
    ensures HonestVotes(w, Next(b, step))
  {
    SignaturesGrow(b, step);
    var b' := Next(b, step);
    forall x | x in b'.az.votes.signatures && x.1 !in w.faultyAz ensures EmittedOnEthereum(b'.eth.vault, x.0) {
      EmittedStays(b, step, x.0);
    }
    forall x | x in b'.eth.votes.signatures && x.1 !in w.faultyEth ensures EmittedOnAzero(b'.az.tokens, x.0) {
      EmittedStays(b, step, x.0);
    }
  }

  lemma ProcessedGrow(b: State, step: Step)
    ensures var b' := Next(b, step);
            && (step.OnAzero? && step.azCall.Receive? ==>
                  b'.az.votes.processed <= b.az.votes.processed + {step.azCall.digest})
            && (!(step.OnAzero? && step.azCall.Receive?) ==> b'.az.votes.processed == b.az.votes.processed)
            && (step.OnEthereum? && step.ethCall.Receive? && b'.eth.votes.processed != b.eth.votes.processed ==>
                  b'.eth.votes.processed == b.eth.votes.processed + {step.ethCall.digest})
            && (!(step.OnEthereum? && step.ethCall.Receive?) ==> b'.eth.votes.processed == b.eth.votes.processed)
  {
    match step
    case OnAzero(caller, c) => Az.Frame(b.az, caller, c);
    case OnEthereum(caller, c) => Eth.Frame(b.eth, caller, c);
  }

  lemma NothingForgedKept(w: World, b: State, step: Step)
    requires AzVotes.WellFormed(b.az) && EthVotes.WellFormed(b.eth)
    requires NothingForged(b) && Trusted(w, b) && HonestVotes(w, Next(b, step))
    ensures NothingForged(Next(b, step))
  {
    var b' := Next(b, step);
    ProcessedGrow(b, step);
    forall h | h in b'.az.votes.processed ensures EmittedOnEthereum(b'.eth.vault, h) {
      if h in b.az.votes.processed {
        EmittedStays(b, step, h);
      } else {
        AzLandedWasSent(w, b, step.azCaller, step.azCall);
      }
    }
    forall h | h in b'.eth.votes.processed ensures EmittedOnAzero(b'.az.tokens, h) {
      if h in b.eth.votes.processed {
        EmittedStays(b, step, h);
      } else {
        EthLandedWasSent(w, b, step.ethCaller, step.ethCall);
      }
    }
  }

  lemma AzPairsKept(pairing: map<Bytes32, Bytes32>, s: Az.State, caller: Az.Account, c: Az.Call)
    requires AzPairsOk(pairing, s.tokens) && (c.AddPair? ==> c.to in pairing && pairing[c.to] == c.from)
    ensures AzPairsOk(pairing, Az.Next(s, caller, c).tokens)
  {
    if c.Send? {
      if Az.ApplySend(s, c).Ok? {
        AzVotes.SendEffect(s, c);
      }
    } else {
      Az.Frame(s, caller, c);
      assert Az.Next(s, caller, c).tokens.sent == s.tokens.sent;
    }
  }

  lemma EthPairsKept(pairing: map<Bytes32, Bytes32>, s: Eth.State, caller: Address, c: Eth.Call)
    requires EthPairsOk(pairing, s.vault) && (c.AddPair? ==> c.from in pairing && pairing[c.from] == c.to)
    ensures EthPairsOk(pairing, Eth.Next(s, caller, c).vault)
  {
    Eth.Frame(s, caller, c);
  }

  lemma PairsKept(w: World, b: State, step: Step)
    requires PairsOk(w, b) && Allowed(w, b, step)
    ensures PairsOk(w, Next(b, step))
  {
    match step
    case OnAzero(caller, c) => AzPairsKept(w.pairing, b.az, caller, c);
    case OnEthereum(caller, c) => EthPairsKept(w.pairing, b.eth, caller, c);
  }

  // ----- amounts

  /** A mint takes exactly its own request out of what is in flight. */
  lemma MintLandsInFlight(b: State, h: Digest, q: AzRequest, token: Bytes32)
    requires EthVotes.NoncesOk(b.eth.vault) && h == AzDigest(q) && h !in b.az.votes.processed
    requires EmittedOnEthereum(b.eth.vault, h)
    ensures SumBy(b.eth.vault.sent, ToAzero(b.az.votes.processed, token)) ==
            SumBy(b.eth.vault.sent, ToAzero(b.az.votes.processed + {h}, token))
              + (if q.token == token then q.amount else 0)
  {
    var sent := b.eth.vault.sent;
    var k :| 0 <= k < |sent| && FitsU128(sent[k].request) && AzDigest(sent[k].request) == h;
    AzRoundTrip(q);
    AzRoundTrip(sent[k].request);
    var (before, after) := (ToAzero(b.az.votes.processed, token), ToAzero(b.az.votes.processed + {h}, token));
    forall i | 0 <= i < |sent| && i != k ensures before(sent[i]) == after(sent[i]) {
      if FitsU128(sent[i].request) {
        AzRoundTrip(sent[i].request);
      }
    }
    SumByChangedAt(sent, k, before, after);
  }

  /** A release takes exactly its own request out of what is in flight. */
  lemma ReleaseLandsInFlight(b: State, h: Digest, q: Request, token: Bytes32)
    requires AzVotes.NoncesOk(b.az.tokens) && h == EthDigest(q) && h !in b.eth.votes.processed
    requires EmittedOnAzero(b.az.tokens, h)
    ensures exists k :: 0 <= k < |b.az.tokens.sent| && b.az.tokens.sent[k].request == q
    ensures SumBy(b.az.tokens.sent, ToEthereum(b.eth.votes.processed, token)) ==
            SumBy(b.az.tokens.sent, ToEthereum(b.eth.votes.processed + {h}, token))
              + (if q.token == token then q.amount else 0)
  {
    var sent := b.az.tokens.sent;
    var k :| 0 <= k < |sent| && EthDigest(sent[k].request) == h;
    EthRoundTrip(q);
    EthRoundTrip(sent[k].request);
    var (before, after) := (ToEthereum(b.eth.votes.processed, token), ToEthereum(b.eth.votes.processed + {h}, token));
    forall i | 0 <= i < |sent| && i != k ensures before(sent[i]) == after(sent[i]) {
      EthRoundTrip(sent[i].request);
    }
    SumByChangedAt(sent, k, before, after);
  }

  /** Nobody can have voted a request through before it is sent: the nonce makes its hash new. */
  lemma UnsentIsOpenOnEthereum(b: State, r: Request)
    requires NothingForged(b) && AzVotes.NoncesOk(b.az.tokens) && r.nonce >= b.az.tokens.requestNonce
    ensures EthDigest(r) !in b.eth.votes.processed
  {
    if EthDigest(r) in b.eth.votes.processed {
      var i :| 0 <= i < |b.az.tokens.sent| && EthDigest(b.az.tokens.sent[i].request) == EthDigest(r);
      AzEffects.NonceSeparates(b.az.tokens.sent[i].request, r);
    }
  }

  lemma UnsentIsOpenOnAzero(b: State, r: Request)
    requires NothingForged(b) && EthVotes.NoncesOk(b.eth.vault) && r.nonce >= b.eth.vault.requestNonce
    ensures FitsU128(r) ==> AzDigest(r) !in b.az.votes.processed
  {
    var sent := b.eth.vault.sent;
    if FitsU128(r) && AzDigest(r) in b.az.votes.processed {
      var i :| 0 <= i < |sent| && FitsU128(sent[i].request) && AzDigest(sent[i].request) == AzDigest(r);
      EthEffects.NonceSeparates(sent[i].request, r);
    }
  }

  lemma AzSendKeeps(w: World, b: State, c: Az.Call, e: Bytes32, opening: int)
    requires OneToOne(w.pairing) && PairsOk(w, b) && e in w.pairing && Balanced(b, e, w.pairing[e], opening)
    requires NothingForged(b) && AzVotes.NoncesOk(b.az.tokens) && c.Send? && Az.ApplySend(b.az, c).Ok?
    ensures Balanced(b.(az := Az.ApplySend(b.az, c).value), e, w.pairing[e], opening)
  {
    var (t, t') := (b.az.tokens, Az.ApplySend(b.az, c).value.tokens);
    AzVotes.SendEffect(b.az, c);
    Az.Frame(b.az, 0, c);
    UnsentIsOpenOnEthereum(b, t'.sent[|t.sent|].request);
    SumBySnoc(t.sent, t'.sent[|t.sent|], ToEthereum(b.eth.votes.processed, e));
    assert t.pairs[c.source] == e <==> c.source == w.pairing[e];
  }

  /** Minting a request that is in flight keeps the balance. */
  lemma MintingKeeps(b: State, s': Az.State, q: AzRequest, e: Bytes32, a: Bytes32, opening: int)
    requires e < ADDRESS_LIMIT && Balanced(b, e, a, opening) && EthVotes.NoncesOk(b.eth.vault)
    requires EmittedOnEthereum(b.eth.vault, AzDigest(q)) && AzDigest(q) !in b.az.votes.processed
    requires s'.votes.processed == b.az.votes.processed + {AzDigest(q)}
    requires s'.tokens == b.az.tokens.(
               supply := b.az.tokens.supply[q.token := Get(b.az.tokens.supply, q.token, 0) + q.amount])
    ensures Balanced(b.(az := s'), e, a, opening)
  {
    MintLandsInFlight(b, AzDigest(q), q, a);
  }

  lemma AzReceiveKeeps(b: State, caller: Az.Account, c: Az.Call, e: Bytes32, a: Bytes32, opening: int)
    requires e < ADDRESS_LIMIT && Balanced(b, e, a, opening) && EthVotes.NoncesOk(b.eth.vault) && c.Receive?
    requires c.digest in Az.Next(b.az, caller, c).votes.processed ==> EmittedOnEthereum(b.eth.vault, c.digest)
    ensures Balanced(Next(b, OnAzero(caller, c)), e, a, opening)
  {
    var s' := Az.Next(b.az, caller, c);
    AzVotes.ReceiveMoves(b.az, caller, c);
    AzEffects.VoteFrame(b.az, caller, c);
    if s'.votes.processed != b.az.votes.processed {
      AzVotes.ReceiveEffect(b.az, caller, c);
      MintingKeeps(b, s', c.request, e, a, opening);
    }
  }

  lemma AzOtherMoves(s: Az.State, caller: Az.Account, c: Az.Call, a: Bytes32)
    requires !c.Receive? && !c.Send?
    ensures var (t, t') := (s.tokens, Az.Next(s, caller, c).tokens);
            && t'.sent == t.sent
            && Get(t'.supply, a, 0) + Get(t'.heldBurned, a, 0) == Get(t.supply, a, 0) + Get(t.heldBurned, a, 0)
  {
  }

  lemma AzOtherKeeps(b: State, caller: Az.Account, c: Az.Call, e: Bytes32, a: Bytes32, opening: int)
    requires e < ADDRESS_LIMIT && Balanced(b, e, a, opening) && !c.Receive? && !c.Send?
    ensures Balanced(Next(b, OnAzero(caller, c)), e, a, opening)
  {
    Az.Frame(b.az, caller, c);
    AzOtherMoves(b.az, caller, c, a);
  }

  /** Tokens locked for a request show up as escrow and as in flight. */
  lemma LockKeeps(w: World, b: State, source: Bytes32, r: Request, e: Bytes32, opening: int)
    requires OneToOne(w.pairing) && PairsOk(w, b) && e in w.pairing && Balanced(b, e, w.pairing[e], opening)
    requires source in b.eth.vault.pairs && r.token == b.eth.vault.pairs[source]
    requires NothingForged(b) && EthVotes.NoncesOk(b.eth.vault) && r.nonce == b.eth.vault.requestNonce
    requires Eth.Locked(b.eth, ToAddress(source), r).Ok?
    ensures Balanced(b.(eth := Eth.Locked(b.eth, ToAddress(source), r).value), e, w.pairing[e], opening)
  {
    UnsentIsOpenOnAzero(b, r);
    SumBySnoc(b.eth.vault.sent, Eth.Lock(ToAddress(source), r), ToAzero(b.az.votes.processed, w.pairing[e]));
    assert source in w.pairing && ToAddress(source) == source;
    assert r.token == w.pairing[e] <==> source == e;
  }

  /** A release takes exactly its amount from the escrow of its own token, or leaves it there undelivered;
      every other vote leaves the vault alone. */
  lemma ReleaseEffect(s: Eth.State, caller: Address, c: Eth.Call, e: Address)
    requires c.Receive?
    ensures var s' := Eth.Next(s, caller, c);
            var (v, v') := (s.vault, s'.vault);
            && v'.sent == v.sent && v'.weth == v.weth && v'.donated == v.donated && v'.recovered == v.recovered
            && if s'.votes.processed == s.votes.processed
               then Eth.Held(v', e) == Eth.Held(v, e) && Undelivered(s', e) == Undelivered(s, e)
               else Eth.Held(v', e) + (if ToAddress(c.request.token) == e then c.request.amount else 0)
                      + Undelivered(s, e) == Eth.Held(v, e) + Undelivered(s', e)
  {
    EthEscrow.ReceiveMoves(s, caller, c);
    EthEffects.VoteFrame(s, caller, c);
    if Eth.Next(s, caller, c).votes.processed != s.votes.processed {
      SumBySnoc(s.votes.releases, EthEscrow.ReleaseOf(s.vault, c), UndeliveredWeight(e, s.vault.weth));
    }
  }

  lemma SentTokenIsPaired(w: World, t: Az.Tokens, q: Request)
    requires OneToOne(w.pairing) && AzPairsOk(w.pairing, t)
    requires exists k :: 0 <= k < |t.sent| && t.sent[k].request == q
    ensures q.token in w.pairing && ToAddress(q.token) == q.token
  {
  }

  /** Paying out a request that is in flight keeps the balance. */
  lemma PayingKeeps(b: State, s': Eth.State, q: Request, e: Bytes32, a: Bytes32, opening: int)
    requires e < ADDRESS_LIMIT && q.token < ADDRESS_LIMIT && Balanced(b, e, a, opening)
    requires s'.vault.sent == b.eth.vault.sent && s'.vault.donated == b.eth.vault.donated
    requires s'.vault.recovered == b.eth.vault.recovered
    requires InFlightToEthereum(b, e) == InFlightToEthereum(b.(eth := s'), e) + (if q.token == e then q.amount else 0)
    requires Eth.Held(s'.vault, e) + (if q.token == e then q.amount else 0) + Undelivered(b.eth, e)
             == Eth.Held(b.eth.vault, e) + Undelivered(s', e)
    ensures Balanced(b.(eth := s'), e, a, opening)
  {
    assert InFlightToAzero(b.(eth := s'), a) == InFlightToAzero(b, a);
  }

  lemma EthReceiveKeeps(w: World, b: State, caller: Address, c: Eth.Call, e: Bytes32, opening: int)
    requires OneToOne(w.pairing) && AzPairsOk(w.pairing, b.az.tokens) && e in w.pairing
    requires Balanced(b, e, w.pairing[e], opening) && AzVotes.NoncesOk(b.az.tokens) && c.Receive?
    requires c.digest in Eth.Next(b.eth, caller, c).votes.processed ==> EmittedOnAzero(b.az.tokens, c.digest)
    ensures Balanced(Next(b, OnEthereum(caller, c)), e, w.pairing[e], opening)
  {
    var s' := Eth.Next(b.eth, caller, c);
    ReleaseEffect(b.eth, caller, c, e);
    if s'.votes.processed != b.eth.votes.processed {
      var x := EthVotes.ReceiveEffect(b.eth, caller, c);
      ReleaseLandsInFlight(b, c.digest, c.request, e);
      SentTokenIsPaired(w, b.az.tokens, c.request);
      PayingKeeps(b, s', c.request, e, w.pairing[e], opening);
    }
  }

  lemma EthOtherKeeps(b: State, caller: Address, c: Eth.Call, e: Bytes32, a: Bytes32, opening: int)
    requires e < ADDRESS_LIMIT && Balanced(b, e, a, opening) && !c.Receive? && !c.Send? && !c.SendNative?
    ensures Balanced(Next(b, OnEthereum(caller, c)), e, a, opening)
  {
    Eth.Frame(b.eth, caller, c);
    EthEscrow.OthersMove(b.eth, caller, c, e);
  }

  lemma EthSendKeeps(w: World, b: State, caller: Address, c: Eth.Call, e: Bytes32, opening: int)
    requires OneToOne(w.pairing) && PairsOk(w, b) && e in w.pairing && Balanced(b, e, w.pairing[e], opening)
    requires NothingForged(b) && EthVotes.NoncesOk(b.eth.vault) && c.Send?
    ensures Balanced(Next(b, OnEthereum(caller, c)), e, w.pairing[e], opening)
  {
    var s := b.eth;
    if Eth.ApplySend(s, c).Ok? {
      var r := Request(s.reg.committeeId, s.vault.pairs[c.source], c.amount, c.receiver, s.vault.requestNonce);
      LockKeeps(w, b, c.source, r, e, opening);
    }
  }

  lemma EthSendNativeKeeps(w: World, b: State, caller: Address, c: Eth.Call, e: Bytes32, opening: int)
    requires OneToOne(w.pairing) && PairsOk(w, b) && e in w.pairing && Balanced(b, e, w.pairing[e], opening)
    requires NothingForged(b) && EthVotes.NoncesOk(b.eth.vault) && c.SendNative?
    ensures Balanced(Next(b, OnEthereum(caller, c)), e, w.pairing[e], opening)
  {
    var s := b.eth;
    var source := FromAddress(s.vault.weth);
    if Eth.ApplySendNative(s, c).Ok? {
      assert ToAddress(source) == s.vault.weth;
      var r := Request(s.reg.committeeId, s.vault.pairs[source], c.value, c.receiver, s.vault.requestNonce);
      LockKeeps(w, b, source, r, e, opening);
    }
  }

  lemma BalanceKept(w: World, b0: State, b: State, step: Step, e: Bytes32)
    requires Inv(w, b0, b) && NothingForged(Next(b, step)) && e in w.pairing
    ensures Balanced(Next(b, step), e, w.pairing[e], Opening(w, b0, e))
  {
    var (a, opening) := (w.pairing[e], Opening(w, b0, e));
    match step
    case OnAzero(caller, c) =>
      if c.Receive? {
        AzReceiveKeeps(b, caller, c, e, a, opening);
      } else if c.Send? {
        if Az.ApplySend(b.az, c).Ok? {
          AzSendKeeps(w, b, c, e, opening);
        }
      } else {
        AzOtherKeeps(b, caller, c, e, a, opening);
      }
    case OnEthereum(caller, c) =>
      if c.Receive? {
        EthReceiveKeeps(w, b, caller, c, e, opening);
      } else if c.Send? {
        EthSendKeeps(w, b, caller, c, e, opening);
      } else if c.SendNative? {
        EthSendNativeKeeps(w, b, caller, c, e, opening);
      } else {
        EthOtherKeeps(b, caller, c, e, a, opening);
      }
  }

  lemma StepKeepsInv(w: World, b0: State, b: State, step: Step)
    requires Inv(w, b0, b) && Trusted(w, b) && Allowed(w, b, step)
    ensures Inv(w, b0, Next(b, step))
  {
    HonestVotesKept(w, b, step);
    NothingForgedKept(w, b, step);
    PairsKept(w, b, step);
    match step {
      case OnAzero(caller, c) => AzVotes.StepKeepsWellFormed(b.az, caller, c);
      case OnEthereum(caller, c) => EthVotes.StepKeepsWellFormed(b.eth, caller, c);
    }
    forall e | e in w.pairing ensures Balanced(Next(b, step), e, w.pairing[e], Opening(w, b0, e)) {
      BalanceKept(w, b0, b, step, e);
    }
  }

  lemma {:induction false} RunKeepsInv(w: World, b0: State, b: State, steps: seq<Step>)
    requires Inv(w, b0, b) && AllowedRun(w, b, steps)
    ensures Inv(w, b0, Run(b, steps))
    decreases |steps|
  {
    if steps != [] {
      StepKeepsInv(w, b0, b, steps[0]);
      RunKeepsInv(w, b0, Next(b, steps[0]), steps[1..]);
    }
  }

  // ----- main results

  /** Both contracts freshly deployed, over tokens that may already exist. */
  ghost predicate Start(w: World, b: State) {
    OneToOne(w.pairing) && Az.Deployed(b.az) && Eth.Deployed(b.eth)
  }

  lemma StartInv(w: World, b: State)
    requires Start(w, b)
    ensures Inv(w, b, b)
  {
    AzVotes.DeployedWellFormed(b.az);
    EthVotes.DeployedWellFormed(b.eth);
  }

  /** Exact two-chain collateral: in every reachable state, what the Ethereum escrow holds of a token,
      with what the owner recovered from it, is what is owed on Aleph Zero and in flight in either
      direction, plus donations, tokens burned by their holders, undelivered releases and the surplus
      at deployment. */
  lemma CollateralExact(w: World, b0: State, steps: seq<Step>, e: Bytes32)
    requires Start(w, b0) && AllowedRun(w, b0, steps) && e in w.pairing
    ensures var (b, a) := (Run(b0, steps), w.pairing[e]);
            Eth.Held(b.eth.vault, e) + Get(b.eth.vault.recovered, e, 0)
            == Get(b.az.tokens.supply, a, 0) + InFlightToAzero(b, a) + InFlightToEthereum(b, e)
               + Get(b.eth.vault.donated, e, 0) + Get(b.az.tokens.heldBurned, a, 0) + Undelivered(b.eth, e)
               + Eth.Held(b0.eth.vault, e) - Get(b0.az.tokens.supply, a, 0)
  {
    StartInv(w, b0);
    RunKeepsInv(w, b0, b0, steps);
    assert Balanced(Run(b0, steps), e, w.pairing[e], Opening(w, b0, e));
  }

  /** Two-chain collateral: the escrow covers the supply on Aleph Zero and every amount in flight in either
      direction, if and only if the owner recovered no more than the surplus at deployment and the
      windfall since; so always, if the escrow covered the supply at deployment and nothing was
      recovered. */
  lemma CollateralAlways(w: World, b0: State, steps: seq<Step>, e: Bytes32)
    requires Start(w, b0) && AllowedRun(w, b0, steps) && e in w.pairing
    ensures var (b, a) := (Run(b0, steps), w.pairing[e]);
            && (Eth.Held(b.eth.vault, e)
                  >= Get(b.az.tokens.supply, a, 0) + InFlightToAzero(b, a) + InFlightToEthereum(b, e)
                <==> Get(b.eth.vault.recovered, e, 0) <= Opening(w, b0, e) + Windfall(b, e, a))
            && (Eth.Held(b0.eth.vault, e) >= Get(b0.az.tokens.supply, a, 0) && Get(b.eth.vault.recovered, e, 0) == 0 ==>
                  Eth.Held(b.eth.vault, e)
                    >= Get(b.az.tokens.supply, a, 0) + InFlightToAzero(b, a) + InFlightToEthereum(b, e))
  {
    CollateralExact(w, b0, steps, e);
  }

  /** Nothing is minted or released that was not sent: with fewer faulty guardians than any threshold
      in use, every processed hash is that of a request the other chain emitted. */
  lemma NoForgery(w: World, b0: State, steps: seq<Step>, h: Digest)
    requires Start(w, b0) && AllowedRun(w, b0, steps)
    ensures var b := Run(b0, steps);
            && (h in b.az.votes.processed ==> EmittedOnEthereum(b.eth.vault, h))
            && (h in b.eth.votes.processed ==> EmittedOnAzero(b.az.tokens, h))
  {
    StartInv(w, b0);
    RunKeepsInv(w, b0, b0, steps);
  }

  lemma OpenRequestIsCovered(w: World, b: State, k: nat)
    requires OneToOne(w.pairing) && PairsOk(w, b) && k < |b.az.tokens.sent|
    requires EthDigest(b.az.tokens.sent[k].request) !in b.eth.votes.processed
    ensures var r := b.az.tokens.sent[k].request;
            && r.token in w.pairing && ToAddress(r.token) == r.token
            && r.amount <= Owed(b, r.token, w.pairing[r.token])
  {
    var r := b.az.tokens.sent[k].request;
    assert r.token in w.pairing && ToAddress(r.token) == r.token;
    SumByHolds(b.az.tokens.sent, k, ToEthereum(b.eth.votes.processed, r.token));
  }

  lemma FundedVoteUnwraps(s: Eth.State, caller: Address, r: Request, deliverOk: bool)
    requires Eth.Held(s.vault, ToAddress(r.token)) >= r.amount
    ensures Eth.Apply(s, caller, Eth.Receive(EthDigest(r), r, true, deliverOk)) != Err(Eth.UnwrappingEth)
  {
  }

  /** A release that is due never lacks funds: as long as the owner has not recovered more of the token
      than surplus and windfall, the escrow covers every request still open, so a vote for it is never
      turned away for want of wrapped ether. */
  lemma ReleaseNeverLacksFunds(w: World, b0: State, steps: seq<Step>, k: nat, caller: Address, deliverOk: bool)
    requires Start(w, b0) && AllowedRun(w, b0, steps)
    requires var b := Run(b0, steps);
             k < |b.az.tokens.sent| && EthDigest(b.az.tokens.sent[k].request) !in b.eth.votes.processed
    ensures var b := Run(b0, steps);
            var r := b.az.tokens.sent[k].request;
            && r.token in w.pairing && r.token < ADDRESS_LIMIT
            && (Get(b.eth.vault.recovered, r.token, 0)
                  <= Opening(w, b0, r.token) + Windfall(b, r.token, w.pairing[r.token])
                ==> && Eth.Held(b.eth.vault, ToAddress(r.token)) >= r.amount
                    && Eth.Apply(b.eth, caller, Eth.Receive(EthDigest(r), r, true, deliverOk))
                       != Err(Eth.UnwrappingEth))
  {
    StartInv(w, b0);
    RunKeepsInv(w, b0, b0, steps);
    var b := Run(b0, steps);
    var r := b.az.tokens.sent[k].request;
    OpenRequestIsCovered(w, b, k);
    CollateralAlways(w, b0, steps, r.token);
    if Eth.Held(b.eth.vault, r.token) >= r.amount {
      FundedVoteUnwraps(b.eth, caller, r, deliverOk);
    }
  }
}
