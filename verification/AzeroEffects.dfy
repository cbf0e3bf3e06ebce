/** What a message of the ink! contract means to its caller, in every state that runs can reach. */
module AzeroEffects {
  import opened Prelude
  import opened Bytes
  import opened Requests
  import opened Tally
  import opened AzeroSpec
  import opened AzeroVotes
  import opened AzeroRewards

  /** Counters agree with signatures, mints are justified, nonces are consecutive, nobody is overpaid,
      and native money and token supplies balance against what was there at deployment. */
  ghost predicate Sound(s: State, balance: nat, supply: map<Bytes32, nat>) {
    && WellFormed(s) && RewardsOk(s.reg, s.funds) && LedgerOk(s.funds, balance)
    && forall token: Bytes32 :: SupplyBalanced(s, supply, token)
  }

  /** Every call keeps all of it, until the unchecked committee counter would wrap. */
  lemma SoundKept(s: State, balance: nat, supply: map<Bytes32, nat>, caller: Account, c: Call)
    requires Sound(s, balance, supply) && (c.SetCommittee? ==> s.reg.committeeId + 1 < U128_LIMIT)
    ensures Sound(Next(s, caller, c), balance, supply)
  {
    StepKeepsWellFormed(s, caller, c);
    RewardsKept(s, caller, c);
    LedgerKept(s, caller, c, balance);
    forall token: Bytes32 ensures SupplyBalanced(Next(s, caller, c), supply, token) {
      SupplyKept(s, supply, token, caller, c);
    }
  }

  lemma DeployedSound(s: State)
    requires Deployed(s)
    ensures Sound(s, s.funds.balance, s.tokens.supply)
  {
    DeployedWellFormed(s);
    assert SumMap(s.funds.paid) == 0 && SumMap(s.funds.collected) == 0;
  }

  // ----- which calls go through, and what an error means

  ghost predicate MaySend(s: State, c: Call)
    requires c.Send?
  {
    && !s.halted && c.receiver != 0 && c.amount != 0 && c.source in s.tokens.pairs
    && c.fee.Some? && c.fee.value <= c.value && (c.value == c.fee.value || c.refundOk)
    && c.burnOk && c.amount <= Get(s.tokens.supply, c.source, 0)
    && s.tokens.requestNonce + 1 < U128_LIMIT
    && (Get(s.funds.collected, s.reg.committeeId, 0) as nat) + c.fee.value < U128_LIMIT
  }

  /** A member's vote goes through if it is known, or names its own data and the counter has room; the
      vote that reaches the active threshold also needs the mint to go through. */
  ghost predicate MayVote(s: State, caller: Account, c: Call)
    requires c.Receive?
  {
    var count := (Get(s.votes.pending, c.digest, 0) as nat) + 1;
    && !s.halted && (c.request.committee, caller) in s.reg.committees
    && (c.digest !in s.votes.processed && (c.digest, caller) !in s.votes.signatures ==>
          && c.digest == AzDigest(c.request) && count < U128_LIMIT && s.reg.committeeId in s.reg.thresholds
          && (s.reg.thresholds[s.reg.committeeId] <= count ==> c.mintOk))
  }

  /** What is missing to a share of the takings by the recorded size. */
  ghost function Missing(s: State, committee: CommitteeId, member: Account): int
    requires committee in s.reg.sizes && s.reg.sizes[committee] > 0
  {
    (Get(s.funds.collected, committee, 0) / s.reg.sizes[committee]) as int - Get(s.funds.paid, (member, committee), 0)
  }

  ghost predicate MayPay(s: State, c: Call)
    requires c.Payout?
  {
    && !s.halted && (c.committee, c.member) in s.reg.committees
    && c.committee in s.reg.sizes && s.reg.sizes[c.committee] > 0
    && (Missing(s, c.committee, c.member) > 0 ==>
          c.transferOk && Missing(s, c.committee, c.member) <= s.funds.balance)
  }

  ghost predicate MayRotate(s: State, caller: Account, c: Call)
    requires c.SetCommittee?
  {
    && caller == s.owner && s.halted
    && c.threshold >= 1 && c.threshold % U32_LIMIT <= |c.members| && Distinct(c.members)
  }

  ghost predicate May(s: State, caller: Account, c: Call) {
    match c
    case Send(_, _, _, _, _, _, _) => MaySend(s, c)
    case Receive(_, _, _, _) => MayVote(s, caller, c)
    case Payout(_, _, _) => MayPay(s, c)
    case SetCommittee(_, _) => MayRotate(s, caller, c)
    case SetHalted(_) => caller == s.owner
    case Fund(value) => s.funds.pocketPool + value < U128_LIMIT
    case RecoverAzero(amount, transferOk) => caller == s.owner && transferOk && amount <= s.funds.balance
    case AddPair(_, _, canMint) => caller == s.owner && s.halted && canMint
    case RemovePair(_) => caller == s.owner && s.halted
    case Donate(_) => true
    case HolderBurn(token, amount) => amount <= Get(s.tokens.supply, token, 0)
  }

  /** The error tells the truth about the call. */
  ghost predicate TrueError(s: State, caller: Account, c: Call, e: Error) {
    match e
    case IsHalted => s.halted && (c.Send? || c.Receive? || c.Payout?)
    case HaltRequired => !s.halted && (c.SetCommittee? || c.AddPair? || c.RemovePair?)
    case NotOwner =>
      caller != s.owner && (c.SetCommittee? || c.SetHalted? || c.AddPair? || c.RemovePair? || c.RecoverAzero?)
    case ZeroAddress => c.Send? && c.receiver == 0
    case ZeroTransferAmount => c.Send? && c.amount == 0
    case UnsupportedPair => c.Send? && c.source !in s.tokens.pairs
    case BaseFeeTooLow => c.Send? && c.fee.Some? && c.value < c.fee.value
    case NoMintPermission => c.AddPair? && !c.canMint
    case HashDoesNotMatchData => c.Receive? && c.digest != AzDigest(c.request)
    case NoSuchCommittee => c.Payout? && c.committee !in s.reg.sizes
    case DuplicateCommitteeMember => c.SetCommittee? && !Distinct(c.members)
    case NotInCommittee =>
      || (c.Receive? && (c.request.committee, caller) !in s.reg.committees)
      || (c.Payout? && (c.committee, c.member) !in s.reg.committees)
    case InvalidThreshold =>
      || (c.SetCommittee? && (c.threshold == 0 || |c.members| < c.threshold % U32_LIMIT))
      || (c.Receive? && s.reg.committeeId !in s.reg.thresholds)
    case PSP22 =>
      || (c.Send? && !(c.burnOk && c.amount <= Get(s.tokens.supply, c.source, 0)))
      || (c.Receive? && !c.mintOk)
      || (c.HolderBurn? && Get(s.tokens.supply, c.token, 0) < c.amount)
    case InkEnvError =>
      || (c.Send? && c.fee.Some? && c.value > c.fee.value && !c.refundOk)
      || (c.RecoverAzero? && !(c.transferOk && c.amount <= s.funds.balance))
      || (c.Payout? && c.committee in s.reg.sizes && s.reg.sizes[c.committee] > 0
          && !(c.transferOk && Missing(s, c.committee, c.member) <= s.funds.balance))
    case Arithmetic =>
      || (c.Send? && (c.fee.None? || s.tokens.requestNonce + 1 >= U128_LIMIT
                      || (Get(s.funds.collected, s.reg.committeeId, 0) as nat) + c.fee.value >= U128_LIMIT))
      || (c.Receive? && (Get(s.votes.pending, c.digest, 0) as nat) + 1 >= U128_LIMIT)
      || (c.Payout? && c.committee in s.reg.sizes && s.reg.sizes[c.committee] == 0)
      || (c.Fund? && s.funds.pocketPool + c.value >= U128_LIMIT)
  }

  /** What `Apply` answers, told from the state before: it goes through or names a true reason. */
  ghost predicate Judged(s: State, caller: Account, c: Call, ok: bool, e: Option<Error>) {
    (ok <==> May(s, caller, c)) && (e.Some? ==> TrueError(s, caller, c, e.value))
  }

  ghost function ErrorOf<S>(r: Result<S, Error>): Option<Error> {
    match r
    case Ok(_) => None
    case Err(e) => Some(e)
  }

  /** A call goes through exactly when it may; otherwise nothing changes and the error is true. */
  ghost predicate Answers(s: State, s': State, caller: Account, c: Call, r: Result<(), Error>) {
    (r.Ok? <==> May(s, caller, c)) && (r.Err? ==> s' == s && TrueError(s, caller, c, r.error))
  }

  lemma Answered(s: State, s': State, caller: Account, c: Call, r: Result<(), Error>)
    requires Follows(Apply(s, caller, c), s, s', r)
    ensures Answers(s, s', caller, c, r)
  {
    CallJudged(s, caller, c);
  }

  lemma SendJudged(s: State, caller: Account, c: Call)
    requires c.Send?
    ensures Judged(s, caller, c, ApplySend(s, c).Ok?, ErrorOf(ApplySend(s, c)))
  {
  }

  lemma VoteJudged(s: State, caller: Account, c: Call)
    requires c.Receive?
    ensures Judged(s, caller, c, ApplyReceive(s, caller, c).Ok?, ErrorOf(ApplyReceive(s, caller, c)))
  {
  }

  lemma PayoutJudged(s: State, caller: Account, c: Call)
    requires c.Payout?
    ensures Judged(s, caller, c, ApplyPayout(s, c).Ok?, ErrorOf(ApplyPayout(s, c)))
  {
    if c.committee in s.reg.sizes && s.reg.sizes[c.committee] > 0 {
      ShareWithinTakings(Get(s.funds.collected, c.committee, 0), s.reg.sizes[c.committee]);
    }
  }

  lemma CallJudged(s: State, caller: Account, c: Call)
    ensures Judged(s, caller, c, Apply(s, caller, c).Ok?, ErrorOf(Apply(s, caller, c)))
  {
    match c
    case Send(_, _, _, _, _, _, _) => SendJudged(s, caller, c);
    case Receive(_, _, _, _) => VoteJudged(s, caller, c);
    case Payout(_, _, _) => PayoutJudged(s, caller, c);
    case _ =>
  }

  // ----- sending

  /** The value comes in and all but the fee goes back; the fee is booked for the active committee and
      nobody else; the amount is burned; the request is out for the active committee and the paired
      token, under a hash that no earlier request has; and nothing else changes. */
  ghost predicate SentOut(s: State, s': State, c: Call)
    requires c.Send?
  {
    var n := |s.tokens.sent|;
    && c.source in s.tokens.pairs && c.fee.Some?
    && s' == s.(funds := s'.funds, tokens := s'.tokens)
    && s'.funds == s.funds.(collected := s'.funds.collected, balance := s'.funds.balance)
    && s'.tokens
       == s.tokens.(requestNonce := s'.tokens.requestNonce, supply := s'.tokens.supply, sent := s'.tokens.sent)
    && s'.tokens.requestNonce == n + 1
    && |s'.tokens.sent| == n + 1 && s.tokens.sent <= s'.tokens.sent && s'.tokens.sent[n].source == c.source
    && Names(s'.tokens.sent[n].request, s.reg.committeeId, s.tokens.pairs[c.source], c.amount, c.receiver, n)
    && (forall i :: 0 <= i < n ==> EthDigest(s'.tokens.sent[i].request) != EthDigest(s'.tokens.sent[n].request))
    && BurnedOnly(s.tokens.supply, s'.tokens.supply, c.source, c.amount)
    && s'.funds.balance + (c.value - c.fee.value) == s.funds.balance + c.value
    && BookedOnly(s.funds.collected, s'.funds.collected, s.reg.committeeId, c.fee.value)
  }

  ghost predicate BurnedOnly(supply: map<Bytes32, nat>, supply': map<Bytes32, nat>, source: Bytes32, amount: nat) {
    && Get(supply', source, 0) + amount == Get(supply, source, 0)
    && forall token :: token != source ==> Get(supply', token, 0) == Get(supply, token, 0)
  }

  ghost predicate BookedOnly(collected: map<CommitteeId, U128>, collected': map<CommitteeId, U128>,
                             committee: CommitteeId, fee: nat) {
    && Get(collected', committee, 0) == (Get(collected, committee, 0) as nat) + fee
    && forall d :: d != committee ==> Get(collected', d, 0) == Get(collected, d, 0)
  }

  lemma NonceSeparates(a: Request, b: Request)
    requires a.nonce != b.nonce
    ensures EthDigest(a) != EthDigest(b)
  {
    EthRoundTrip(a);
    EthRoundTrip(b);
  }

  lemma NewHash(t: Tokens, n: nat)
    requires NoncesOk(t) && |t.sent| == n + 1
    ensures forall i :: 0 <= i < n ==> EthDigest(t.sent[i].request) != EthDigest(t.sent[n].request)
  {
    forall i | 0 <= i < n ensures EthDigest(t.sent[i].request) != EthDigest(t.sent[n].request) {
      NonceSeparates(t.sent[i].request, t.sent[n].request);
    }
  }

  lemma SendMoves(s: State, c: Call)
    requires c.Send? && ApplySend(s, c).Ok?
    ensures var s' := ApplySend(s, c).value;
            && c.source in s.tokens.pairs && c.fee.Some? && c.fee.value <= c.value
            && s' == s.(funds := s'.funds, tokens := s'.tokens)
            && s'.funds == s.funds.(collected := s'.funds.collected, balance := s.funds.balance + c.fee.value)
            && s'.tokens == s.tokens.(requestNonce := s.tokens.requestNonce + 1, supply := s'.tokens.supply,
                                      sent := s'.tokens.sent)
            && s'.tokens.sent == s.tokens.sent + [Sent(c.source, Request(s.reg.committeeId, s.tokens.pairs[c.source],
                                                                         c.amount, c.receiver, s.tokens.requestNonce))]
            && BurnedOnly(s.tokens.supply, s'.tokens.supply, c.source, c.amount)
            && BookedOnly(s.funds.collected, s'.funds.collected, s.reg.committeeId, c.fee.value)
  {
  }

  lemma SendMeans(s: State, c: Call)
    requires NoncesOk(s.tokens) && c.Send? && ApplySend(s, c).Ok?
    ensures SentOut(s, ApplySend(s, c).value, c)
  {
    SendMoves(s, c);
    NoncesKept(s, 0, c);
    NewHash(ApplySend(s, c).value.tokens, |s.tokens.sent|);
  }

  // ----- voting

  /** A known vote changes nothing. A first vote is on record, alone, and voting again changes nothing;
      it gets the request through exactly when it brings the counter to the active threshold; until
      then the counter is the number of signers and nothing else moves. */
  ghost predicate VoteTaken(s: State, s': State, caller: Account, c: Call)
    requires c.Receive?
  {
    if c.digest in s.votes.processed || (c.digest, caller) in s.votes.signatures then s' == s
    else
      && s' == s.(votes := s'.votes, tokens := s'.tokens, funds := s'.funds)
      && c.digest == AzDigest(c.request) && s'.votes.signatures == s.votes.signatures + {(c.digest, caller)}
      && Next(s', caller, c) == s'
      && (forall h :: h != c.digest ==> Get(s'.votes.pending, h, 0) == Get(s.votes.pending, h, 0))
      && if ReachesThreshold(s, caller, c) then Landed(s, s', c)
         else && s'.votes == s.votes.(signatures := s'.votes.signatures, pending := s'.votes.pending)
              && Get(s'.votes.pending, c.digest, 0) == |Voters(s'.votes, c.digest)|
              && s'.tokens == s.tokens && s'.funds == s.funds
  }

  /** The request is through, for the first time, signed by members of its own committee, at least the
      active threshold of them; its amount, and nothing else, is minted; and pocket money is paid if
      the pool and the balance have it, without touching the pool. */
  ghost predicate Landed(s: State, s': State, c: Call)
    requires c.Receive?
  {
    && s'.votes.processed == s.votes.processed + {c.digest} && c.digest !in s'.votes.pending
    && s'.votes.minted == s.votes.minted + [Mint(c.digest, c.request, s.reg.committeeId)]
    && (forall i :: 0 <= i < |s.votes.minted| ==> s.votes.minted[i].digest != c.digest)
    && Voters(s'.votes, c.digest) <= Members(s.reg, c.request.committee)
    && s.reg.committeeId in s.reg.thresholds && |Voters(s'.votes, c.digest)| >= s.reg.thresholds[s.reg.committeeId]
    && s'.tokens == s.tokens.(supply := s'.tokens.supply)
    && MintedOnly(s.tokens.supply, s'.tokens.supply, c.request)
    && PocketPaidOut(s.funds, s'.funds, c.pocketOk)
  }

  ghost predicate PocketPaidOut(f: Funds, f': Funds, pocketOk: bool) {
    var paid := if pocketOk && f.pocketMoney <= f.pocketPool && f.pocketMoney <= f.balance then f.pocketMoney else 0;
    && f' == f.(balance := f'.balance, pocketPaid := f'.pocketPaid)
    && f'.balance + paid == f.balance && f'.pocketPaid == f.pocketPaid + paid
  }

  lemma VoteFrame(s: State, caller: Account, c: Call)
    requires c.Receive?
    ensures var s' := Next(s, caller, c);
            && s'.funds.paid == s.funds.paid && s'.funds.collected == s.funds.collected
            && (s'.votes.processed == s.votes.processed ==>
                  s'.tokens == s.tokens && s'.funds == s.funds && s'.votes.minted == s.votes.minted)
            && s.votes.processed <= s'.votes.processed <= s.votes.processed + {c.digest}
            && s.votes.signatures <= s'.votes.signatures <= s.votes.signatures + {(c.digest, caller)}
  {
  }

  lemma VotersAreMembers(g: Registry, v: Ballots, r: AzRequest)
    requires VotesOk(g, v)
    ensures Voters(v, AzDigest(r)) <= Members(g, r.committee)
  {
    AzRoundTrip(r);
    forall a | a in Voters(v, AzDigest(r)) ensures a in Members(g, r.committee) {
      assert ValidVote(g, AzDigest(r), a);
      assert (r.committee, a) in g.committees;
    }
  }

  /** Exactly the request's amount is added to the supply of its token. */
  ghost predicate MintedOnly(supply: map<Bytes32, nat>, supply': map<Bytes32, nat>, r: AzRequest) {
    && Get(supply', r.token, 0) == Get(supply, r.token, 0) + r.amount
    && forall token :: token != r.token ==> Get(supply', token, 0) == Get(supply, token, 0)
  }

  lemma LandingTokens(s: State, caller: Account, c: Call)
    requires c.Receive? && Next(s, caller, c).votes.minted != s.votes.minted
    ensures var s' := Next(s, caller, c);
            && s'.tokens == s.tokens.(supply := s'.tokens.supply)
            && MintedOnly(s.tokens.supply, s'.tokens.supply, c.request)
            && s'.votes.minted == s.votes.minted + [Mint(c.digest, c.request, s.reg.committeeId)]
            && s'.votes.processed == s.votes.processed + {c.digest} && c.digest !in s'.votes.pending
            && PocketPaidOut(s.funds, s'.funds, c.pocketOk)
  {
    ReceiveMoves(s, caller, c);
  }

  lemma LandingVotes(g: Registry, v: Ballots, v': Ballots, caller: Account, m: Mint, threshold: nat)
    requires CountsOk(PollOf(v)) && VotesOk(g, v') && MintsOk(g, v) && AzeroVotes.Counted(v, v', caller, m, threshold)
    requires m.digest == AzDigest(m.request) && v'.processed != v.processed
    ensures v'.minted == v.minted + [m] && |Voters(v', m.digest)| >= threshold
    ensures Voters(v', m.digest) <= Members(g, m.request.committee)
    ensures forall i :: 0 <= i < |v.minted| ==> v.minted[i].digest != m.digest
  {
    VotersAreMembers(g, v', m.request);
    SignersAfterVote(v.signatures, m.digest, caller);
  }

  lemma LandingMeans(s: State, caller: Account, c: Call)
    requires WellFormed(s) && c.Receive? && Next(s, caller, c).votes.processed != s.votes.processed
    ensures Landed(s, Next(s, caller, c), c)
  {
    ReceiveEffect(s, caller, c);
    VoteFrame(s, caller, c);
    VoteKeeps(s, caller, c);
    LandingVotes(s.reg, s.votes, Next(s, caller, c).votes, caller, Mint(c.digest, c.request, s.reg.committeeId),
                 s.reg.thresholds[s.reg.committeeId]);
    LandingTokens(s, caller, c);
  }

  /** A first vote that goes through: what it writes besides what a landing moves. */
  lemma FirstVote(s: State, caller: Account, c: Call)
    requires c.Receive? && ApplyReceive(s, caller, c).Ok?
    requires c.digest !in s.votes.processed && (c.digest, caller) !in s.votes.signatures
    ensures var s' := Next(s, caller, c);
            && s' == s.(votes := s'.votes, tokens := s'.tokens, funds := s'.funds)
            && c.digest == AzDigest(c.request) && s'.votes.signatures == s.votes.signatures + {(c.digest, caller)}
            && (forall h :: h != c.digest ==> Get(s'.votes.pending, h, 0) == Get(s.votes.pending, h, 0))
            && (s'.votes.minted == s.votes.minted ==>
                  && s'.votes == s.votes.(signatures := s'.votes.signatures, pending := s'.votes.pending)
                  && s'.tokens == s.tokens && s'.funds == s.funds)
            && (s'.votes.minted != s.votes.minted ==> s'.votes.processed != s.votes.processed)
  {
  }

  lemma VoteMeans(s: State, caller: Account, c: Call)
    requires WellFormed(s) && c.Receive? && Apply(s, caller, c).Ok?
    ensures VoteTaken(s, Next(s, caller, c), caller, c)
  {
    var s' := Next(s, caller, c);
    if c.digest !in s.votes.processed && (c.digest, caller) !in s.votes.signatures {
      FirstVote(s, caller, c);
      VoteKeeps(s, caller, c);
      RecordedVoteChangesNothing(s', caller, c);
      ReachingMints(s, caller, c);
      if ReachesThreshold(s, caller, c) {
        LandingMeans(s, caller, c);
      }
    }
  }

  // ----- rewards

  /** The takings of the first committee, divided by the number of its members. */
  ghost predicate EqualShare(g: Registry, f: Funds, amount: nat) {
    Members(g, 0) != {} && amount == Get(f.collected, 0, 0) / |Members(g, 0)|
  }

  /** The member now has exactly an equal share of the takings and nothing more to claim, what it got
      left the balance, nobody else's total changed, and the committee is still not overpaid. */
  ghost predicate PaidUp(s: State, s': State, c: Call)
    requires c.Payout?
  {
    var (f, f') := (s.funds, s'.funds);
    && c.committee == 0 && s' == s.(funds := f') && f' == f.(paid := f'.paid, balance := f'.balance)
    && EqualShare(s.reg, f, Get(f'.paid, (c.member, 0), 0))
    && Outstanding(s', 0, c.member) == Ok(0)
    && f'.balance + Get(f'.paid, (c.member, 0), 0) == f.balance + Get(f.paid, (c.member, 0), 0)
    && (forall k :: k != (c.member, 0) ==> Get(f'.paid, k, 0) == Get(f.paid, k, 0))
    && SumMap(PaidIn(f'.paid, 0)) <= Get(f'.collected, 0, 0)
  }

  lemma PaidWithinTakings(g: Registry, f: Funds)
    requires RegistryOk(g) && RewardsOk(g, f)
    ensures SumMap(PaidIn(f.paid, 0)) <= Get(f.collected, 0, 0)
  {
    PaidMembers(g, f);
    FirstCommittee(g);
    SharesFit(PaidIn(f.paid, 0), Members(g, 0), g.sizes[0], Get(f.collected, 0, 0));
  }

  lemma ShareIsEqual(g: Registry, f: Funds)
    requires RegistryOk(g) && Members(g, 0) != {}
    ensures EqualShare(g, f, Share(g, f))
  {
    FirstCommittee(g);
  }

  lemma MemberSeats(g: Registry, m: Account)
    requires RegistryOk(g) && (0, m) in g.committees
    ensures m in Members(g, 0) && |Members(g, 0)| == g.sizes[0] > 0
  {
    FirstCommittee(g);
    assert m in Members(g, 0);
  }

  lemma PayoutMeans(s: State, caller: Account, c: Call)
    requires RegistryOk(s.reg) && RewardsOk(s.reg, s.funds) && c.Payout? && ApplyPayout(s, c).Ok?
    ensures PaidUp(s, ApplyPayout(s, c).value, c)
  {
    var s' := ApplyPayout(s, c).value;
    PayoutEffect(s, c);
    MemberSeats(s.reg, c.member);
    RewardsKept(s, caller, c);
    Frame(s, caller, c);
    OutstandingShare(s', c.member);
    ShareIsEqual(s.reg, s.funds);
    PaidWithinTakings(s'.reg, s'.funds);
  }

  lemma OutstandingShare(s: State, member: Account)
    requires 0 in s.reg.sizes && s.reg.sizes[0] > 0 && (0, member) in s.reg.committees
    requires Get(s.funds.paid, (member, 0), 0) <= Share(s.reg, s.funds)
    ensures Outstanding(s, 0, member).Ok?
    ensures Outstanding(s, 0, member).value == Share(s.reg, s.funds) - Get(s.funds.paid, (member, 0), 0)
  {
  }

  /** Who may ask: members of the first committee and nobody else; what they are told is what is missing
      to an equal share of the takings. */
  lemma OutstandingMeans(s: State, committee: CommitteeId, member: Account)
    requires RegistryOk(s.reg) && RewardsOk(s.reg, s.funds)
    ensures Outstanding(s, committee, member).Ok? <==> committee == 0 && member in Members(s.reg, 0)
    ensures Outstanding(s, committee, member).Ok? ==>
              EqualShare(s.reg, s.funds, Get(s.funds.paid, (member, 0), 0) + Outstanding(s, committee, member).value)
  {
    if committee == 0 && member in Members(s.reg, 0) {
      assert (0, member) in s.reg.committees;
      MemberSeats(s.reg, member);
      OutstandingShare(s, member);
      ShareIsEqual(s.reg, s.funds);
    } else if committee == 0 {
      assert (0, member) !in s.reg.committees;
    } else {
      assert committee !in s.reg.sizes.Keys;
    }
  }

  // ----- rotation

  /** The new committee is the list with the given threshold, no earlier committee or threshold changed,
      and the size is not recorded. */
  ghost predicate Rotated(g: Registry, g': Registry, c: Call)
    requires c.SetCommittee?
  {
    && g'.committeeId == g.committeeId + 1 && Seated(g', g'.committeeId, c.members, c.threshold)
    && g'.sizes == g.sizes
    && (forall d: CommitteeId :: d in g.thresholds ==>
          && d != g'.committeeId && Members(g', d) == Members(g, d)
          && d in g'.thresholds && g'.thresholds[d] == g.thresholds[d])
  }

  /** A committee with exactly these members and this threshold. */
  ghost predicate Seated(g: Registry, c: CommitteeId, members: seq<Account>, threshold: nat) {
    && Members(g, c) == Elements(members) && |Members(g, c)| == |members|
    && c in g.thresholds && g.thresholds[c] == threshold
  }

  lemma MembersOf(g: Registry, c: CommitteeId)
    requires RegistryOk(g) && c < |g.rosters|
    ensures Members(g, c) == Elements(g.rosters[c]) && |Members(g, c)| == |g.rosters[c]|
  {
    forall a ensures a in Members(g, c) <==> a in Elements(g.rosters[c]) {
      assert (c, a) in g.committees <==> a in g.rosters[c];
    }
    DistinctCardinality(g.rosters[c]);
  }

  lemma RotationMeans(s: State, caller: Account, c: Call)
    requires RegistryOk(s.reg) && s.reg.committeeId + 1 < U128_LIMIT && c.SetCommittee?
             && ApplySetCommittee(s, caller, c).Ok?
    ensures Rotated(s.reg, ApplySetCommittee(s, caller, c).value.reg, c)
  {
    var (g, g') := (s.reg, ApplySetCommittee(s, caller, c).value.reg);
    RotationKeeps(s, caller, c);
    assert g'.rosters == g.rosters + [c.members];
    MembersOf(g', g'.committeeId);
    forall d: CommitteeId | d in g.thresholds ensures Members(g', d) == Members(g, d) {
      MembersOf(g, d);
      MembersOf(g', d);
    }
  }

  /** Over every run: a committee is, and stays, what the call that set it said. */
  lemma CommitteeAsConfigured(s0: State, calls: seq<(Account, Call)>, i: nat)
    requires Deployed(s0) && |calls| < U128_LIMIT && i < |calls| && calls[i].1.SetCommittee?
    requires May(Run(s0, calls[..i]), calls[i].0, calls[i].1)
    ensures var (id, c) := (Run(s0, calls[..i]).reg.committeeId + 1, calls[i].1);
            id < U128_LIMIT && Seated(Run(s0, calls).reg, id, c.members, c.threshold)
  {
    DeployedWellFormed(s0);
    RunKeepsWellFormed(s0, calls[..i]);
    RunCountsCommittees(s0, calls[..i]);
    RunAt(s0, calls, i);
    ConfiguredStays(Run(s0, calls[..i]), calls[i].0, calls[i].1, calls[i + 1..]);
  }

  lemma ConfiguredStays(s: State, caller: Account, c: Call, rest: seq<(Account, Call)>)
    requires WellFormed(s) && s.reg.committeeId + 1 + |rest| < U128_LIMIT && c.SetCommittee? && May(s, caller, c)
    ensures Seated(Run(Next(s, caller, c), rest).reg, s.reg.committeeId + 1, c.members, c.threshold)
  {
    CallJudged(s, caller, c);
    RotationMeans(s, caller, c);
    StepKeepsWellFormed(s, caller, c);
    PastCommitteesImmutable(Next(s, caller, c), rest, s.reg.committeeId + 1);
  }

  /** A run, cut at its i-th call. */
  lemma RunAt(s: State, calls: seq<(Account, Call)>, i: nat)
    requires i < |calls|
    ensures Run(s, calls) == Run(Next(Run(s, calls[..i]), calls[i].0, calls[i].1), calls[i + 1..])
  {
    RunSnoc(s, calls[..i], calls[i].0, calls[i].1);
    assert calls[..i] + [(calls[i].0, calls[i].1)] == calls[..i + 1] && calls == calls[..i + 1] + calls[i + 1..];
    RunInTwo(s, calls[..i + 1], calls[i + 1..]);
  }

  lemma {:induction false} RunCountsCommittees(s: State, calls: seq<(Account, Call)>)
    requires WellFormed(s) && s.reg.committeeId + |calls| < U128_LIMIT
    ensures Run(s, calls).reg.committeeId <= s.reg.committeeId + |calls|
    decreases |calls|
  {
    if calls != [] {
      StepKeepsWellFormed(s, calls[0].0, calls[0].1);
      RunCountsCommittees(Next(s, calls[0].0, calls[0].1), calls[1..]);
    }
  }

  /** What deployment accepts and leaves behind: halted, with exactly the given first committee. */
  lemma InitMeans(members: seq<Account>, threshold: U128, pocketMoney: U128, owner: Account,
                  balance: nat, supply: map<Bytes32, nat>)
    requires |members| < U32_LIMIT
    ensures var r := Init(members, threshold, pocketMoney, owner, balance, supply);
            && (r.Ok? <==> threshold >= 1 && threshold % U32_LIMIT <= |members| && Distinct(members))
            && (r.Err? ==> r.error == if threshold >= 1 && threshold % U32_LIMIT <= |members|
                                      then DuplicateCommitteeMember else InvalidThreshold)
            && (r.Ok? ==> Founded(r.value, members, threshold, pocketMoney, owner, balance, supply))
  {
    var r := Init(members, threshold, pocketMoney, owner, balance, supply);
    if r.Ok? {
      DeployedWellFormed(r.value);
      MembersOf(r.value.reg, 0);
    }
  }

  ghost predicate Founded(s: State, members: seq<Account>, threshold: U128, pocketMoney: U128, owner: Account,
                          balance: nat, supply: map<Bytes32, nat>) {
    && s.halted && s.owner == owner && s.reg.committeeId == 0 && Seated(s.reg, 0, members, threshold)
    && s.reg.sizes == map[0 := |members|] && s.votes == Ballots(map[], {}, {}, [])
    && s.funds.pocketMoney == pocketMoney && s.funds.pocketPool == 0 && s.funds.balance == balance
    && s.tokens.supply == supply && s.tokens.sent == [] && s.tokens.pairs == map[]
  }

  // ----- the plain messages

  /** Exactly the field the message is for. */
  ghost predicate PlainlyDone(s: State, s': State, c: Call) {
    var (f, f', t, t') := (s.funds, s'.funds, s.tokens, s'.tokens);
    match c
    case SetHalted(halt) => s' == s.(halted := halt)
    case Fund(value) =>
      && s' == s.(funds := f') && f' == f.(pocketPool := f'.pocketPool, balance := f'.balance)
      && f'.pocketPool - f.pocketPool == f'.balance - f.balance == value
    case RecoverAzero(amount, _) =>
      && s' == s.(funds := f') && f' == f.(balance := f'.balance, recovered := f'.recovered)
      && f.balance - f'.balance == f'.recovered - f.recovered == amount
    case Donate(value) =>
      && s' == s.(funds := f') && f' == f.(balance := f'.balance, donated := f'.donated)
      && f'.balance - f.balance == f'.donated - f.donated == value
    case AddPair(from, to, _) =>
      && s' == s.(tokens := t') && t' == t.(pairs := t'.pairs)
      && from in t'.pairs && t'.pairs[from] == to && t'.pairs - {from} == t.pairs - {from}
    case RemovePair(from) =>
      && s' == s.(tokens := t') && t' == t.(pairs := t'.pairs)
      && from !in t'.pairs && t'.pairs == t.pairs - {from}
    case HolderBurn(token, amount) =>
      && s' == s.(tokens := t') && t' == t.(supply := t'.supply, heldBurned := t'.heldBurned)
      && BurnedOnly(t.supply, t'.supply, token, amount) && BurnedOnly(t'.heldBurned, t.heldBurned, token, amount)
    case _ => true
  }

  lemma PlainMeans(s: State, caller: Account, c: Call)
    requires Apply(s, caller, c).Ok?
    ensures PlainlyDone(s, Next(s, caller, c), c)
  {
  }

  // ----- halting and recovering

  /** Nobody but the owner can move votes, requests or rewards from here. */
  ghost predicate Frozen(s: State) {
    forall calls: seq<(Account, Call)> :: (forall i :: 0 <= i < |calls| ==> calls[i].0 != s.owner) ==>
      var s' := Run(s, calls);
      && s'.halted && s'.reg == s.reg && s'.votes == s.votes && s'.tokens.sent == s.tokens.sent
      && s'.funds.paid == s.funds.paid && s'.funds.collected == s.funds.collected
  }

  lemma HaltedIsFrozen(s: State)
    requires s.halted
    ensures Frozen(s)
  {
    forall calls: seq<(Account, Call)> | forall i :: 0 <= i < |calls| ==> calls[i].0 != s.owner
      ensures var s' := Run(s, calls);
              && s'.halted && s'.reg == s.reg && s'.votes == s.votes && s'.tokens.sent == s.tokens.sent
              && s'.funds.paid == s.funds.paid && s'.funds.collected == s.funds.collected
    {
      HaltFreezes(s, calls);
    }
  }
}
