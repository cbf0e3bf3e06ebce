/** What a function of the Solidity contract means to its caller, in every state that runs can reach. */
module EthereumEffects {
  import opened Prelude
  import opened Bytes
  import opened Requests
  import opened Tally
  import opened EthereumSpec
  import opened EthereumVotes
  import opened EthereumEscrow

  /** Committees, votes, quorums, releases and nonces are in order, and tokens and ether balance against
      the tokens that were there at deployment. */
  ghost predicate Sound(s: State, escrow: map<Address, nat>) {
    && WellFormed(s) && EtherOk(s)
    && forall token: Address :: EscrowOk(s, Get(escrow, token, 0), token)
  }

  lemma SoundKept(s: State, escrow: map<Address, nat>, caller: Address, c: Call)
    requires Sound(s, escrow)
    ensures Sound(Next(s, caller, c), escrow)
  {
    StepKeepsWellFormed(s, caller, c);
    StepKeeps(s, caller, c, Get(escrow, 0, 0), 0);
    forall token: Address ensures EscrowOk(Next(s, caller, c), Get(escrow, token, 0), token) {
      StepKeeps(s, caller, c, Get(escrow, token, 0), token);
    }
  }

  lemma DeployedSound(s: State)
    requires Deployed(s)
    ensures Sound(s, s.vault.escrow)
  {
    DeployedWellFormed(s);
  }

  // ----- which calls go through, and what an error means

  /** A member's vote goes through if it is known, or names its own data and the counter has room; the
      vote that reaches the threshold of the request's committee also needs wrapped ether, if that is
      what it asks for, to be unwrapped. */
  ghost predicate MayVote(s: State, caller: Address, c: Call)
    requires c.Receive?
  {
    var h := EthDigest(c.request);
    var count := (Get(s.votes.pending, h, 0) as nat) + 1;
    && !s.paused && IsInCommittee(s.reg, c.request.committee, caller)
    && (c.digest !in s.votes.processed && (h, caller) !in s.votes.signatures ==>
          && c.digest == h && count < U256_LIMIT
          && (Get(s.reg.thresholds, c.request.committee, 0) <= count ==> MayRelease(s.vault, c)))
  }

  ghost predicate MayRelease(v: Vault, c: Call)
    requires c.Receive?
  {
    ToAddress(c.request.token) == v.weth ==> c.unwrapOk && c.request.amount <= Held(v, v.weth)
  }

  ghost predicate MaySeat(g: Registry, id: U256, members: seq<Address>, threshold: U256) {
    && 1 <= threshold <= |members| && Distinct(members)
    && forall a :: a in members ==> !IsInCommittee(g, id, a)
  }

  ghost predicate May(s: State, caller: Address, c: Call) {
    match c
    case Send(source, amount, _, pullOk) =>
      && !s.paused && amount != 0 && Get(s.vault.pairs, source, 0) != 0 && pullOk
      && s.vault.requestNonce + 1 < U256_LIMIT
    case SendNative(_, value, wrapOk) =>
      && !s.paused && value != 0 && Get(s.vault.pairs, FromAddress(s.vault.weth), 0) != 0 && wrapOk
      && s.vault.requestNonce + 1 < U256_LIMIT
    case Receive(_, _, _, _) => MayVote(s, caller, c)
    case SetCommittee(members, threshold) =>
      && caller == s.owner && s.paused && s.reg.committeeId + 1 < U256_LIMIT
      && MaySeat(s.reg, s.reg.committeeId + 1, members, threshold)
    case Pause => caller == s.owner && !s.paused
    case Unpause => caller == s.owner && s.paused
    case AddPair(_, _) => caller == s.owner && s.paused
    case RemovePair(_) => caller == s.owner && s.paused
    case RecoverERC20(token, amount, transferOk) => caller == s.owner && transferOk && amount <= Held(s.vault, token)
    case RecoverNative(amount, transferOk) => caller == s.owner && transferOk && amount <= s.vault.ether
    case Donate(_, _) => true
    case ForceEther(_) => true
  }

  ghost predicate OwnerOnly(c: Call) {
    !c.Send? && !c.SendNative? && !c.Receive? && !c.Donate? && !c.ForceEther?
  }

  /** The error tells the truth about the call. */
  ghost predicate TrueError(s: State, caller: Address, c: Call, e: Error) {
    match e
    case EnforcedPause => s.paused && (c.Send? || c.SendNative? || c.Receive? || c.Pause?)
    case ExpectedPause => !s.paused && (c.SetCommittee? || c.Unpause? || c.AddPair? || c.RemovePair?)
    case NotOwner => caller != s.owner && OwnerOnly(c)
    case NotInCommittee => c.Receive? && !IsInCommittee(s.reg, c.request.committee, caller)
    case DataHashMismatch => c.Receive? && c.digest != EthDigest(c.request)
    case UnwrappingEth => c.Receive? && !MayRelease(s.vault, c)
    case ZeroAmount => (c.Send? && c.amount == 0) || (c.SendNative? && c.value == 0)
    case UnsupportedPair =>
      || (c.Send? && Get(s.vault.pairs, c.source, 0) == 0)
      || (c.SendNative? && Get(s.vault.pairs, FromAddress(s.vault.weth), 0) == 0)
    case WrappingEth => c.SendNative? && !c.wrapOk
    case TokenTransfer =>
      (c.Send? && !c.pullOk) || (c.RecoverERC20? && !(c.transferOk && c.amount <= Held(s.vault, c.token)))
    case EthTransfer => c.RecoverNative? && !(c.transferOk && c.amount <= s.vault.ether)
    case ZeroSignatureThreshold => c.SetCommittee? && c.threshold == 0
    case NotEnoughGuardians => c.SetCommittee? && |c.members| < c.threshold
    case DuplicateCommitteeMember =>
      c.SetCommittee? && (!Distinct(c.members) || exists a :: a in c.members && NewSeatTaken(s.reg, a))
    case Panic =>
      || ((c.Send? || c.SendNative?) && s.vault.requestNonce + 1 >= U256_LIMIT)
      || (c.Receive? && (Get(s.votes.pending, EthDigest(c.request), 0) as nat) + 1 >= U256_LIMIT)
      || (c.SetCommittee? && s.reg.committeeId + 1 >= U256_LIMIT)
  }

  ghost predicate NewSeatTaken(g: Registry, a: Address) {
    g.committeeId + 1 < U256_LIMIT && IsInCommittee(g, g.committeeId + 1, a)
  }

  /** A call goes through exactly when it may; otherwise nothing changes and the error is true. */
  ghost predicate Answers(s: State, s': State, caller: Address, c: Call, r: Result<(), Error>) {
    (r.Ok? <==> May(s, caller, c)) && (r.Err? ==> s' == s && TrueError(s, caller, c, r.error))
  }

  lemma VoteAnswered(s: State, s': State, caller: Address, c: Call, r: Result<(), Error>)
    requires c.Receive? && Follows(ApplyReceive(s, caller, c), s, s', r)
    ensures Answers(s, s', caller, c, r)
  {
    ReleaseFails(s.vault, c);
  }

  lemma SeatingAnswered(s: State, s': State, caller: Address, c: Call, r: Result<(), Error>)
    requires c.SetCommittee? && Follows(ApplySetCommittee(s, caller, c), s, s', r)
    ensures Answers(s, s', caller, c, r)
  {
    if r == Err(DuplicateCommitteeMember) && Distinct(c.members) {
      var a :| a in c.members && IsInCommittee(s.reg, s.reg.committeeId + 1, a);
      assert NewSeatTaken(s.reg, a);
    }
  }

  lemma Answered(s: State, s': State, caller: Address, c: Call, r: Result<(), Error>)
    requires Follows(Apply(s, caller, c), s, s', r)
    ensures Answers(s, s', caller, c, r)
  {
    match c
    case Receive(_, _, _, _) => VoteAnswered(s, s', caller, c, r);
    case SetCommittee(_, _) => SeatingAnswered(s, s', caller, c, r);
    case _ =>
  }

  // ----- sending

  /** Exactly the amount of exactly this token came in, the request is out for the current committee under
      a hash that no earlier request has on the other chain, and nothing else changed. */
  ghost predicate LockedUp(s: State, s': State, token: Address, dest: Bytes32, amount: nat, receiver: Bytes32) {
    var n := |s.vault.sent|;
    && |s'.vault.sent| == n + 1 && s.vault.sent <= s'.vault.sent && s'.vault.sent[n].token == token
    && Names(s'.vault.sent[n].request, s.reg.committeeId, dest, amount, receiver, n)
    && (forall i :: 0 <= i < n ==> Apart(s'.vault.sent[i].request, s'.vault.sent[n].request))
    && Held(s'.vault, token) == Held(s.vault, token) + amount
    && (forall t: Address :: t != token ==> Held(s'.vault, t) == Held(s.vault, t))
    && s' == s.(vault := s'.vault) && s'.vault.requestNonce == n + 1
    && s'.vault == s.vault.(escrow := s'.vault.escrow, requestNonce := s'.vault.requestNonce, sent := s'.vault.sent)
  }

  /** Guardians vote for different hashes on Aleph Zero. */
  ghost predicate Apart(a: Request, b: Request) {
    FitsU128(a) && FitsU128(b) ==> AzDigest(a) != AzDigest(b)
  }

  lemma NonceSeparates(a: Request, b: Request)
    requires a.nonce != b.nonce
    ensures Apart(a, b)
  {
    if FitsU128(a) && FitsU128(b) {
      AzRoundTrip(a);
      AzRoundTrip(b);
    }
  }

  lemma LockMeans(s: State, token: Address, r: Request)
    requires NoncesOk(s.vault) && Locked(s, token, r).Ok? && r.committee == s.reg.committeeId
             && r.nonce == s.vault.requestNonce
    ensures LockedUp(s, Locked(s, token, r).value, token, r.token, r.amount, r.receiver)
  {
    var (s', n) := (Locked(s, token, r).value, |s.vault.sent|);
    forall i | 0 <= i < n ensures Apart(s'.vault.sent[i].request, s'.vault.sent[n].request) {
      NonceSeparates(s'.vault.sent[i].request, s'.vault.sent[n].request);
    }
  }

  lemma SendMeans(s: State, c: Call)
    requires NoncesOk(s.vault) && c.Send? && ApplySend(s, c).Ok?
    ensures c.source in s.vault.pairs
    ensures LockedUp(s, ApplySend(s, c).value, ToAddress(c.source), s.vault.pairs[c.source], c.amount, c.receiver)
  {
    LockMeans(s, ToAddress(c.source),
              Request(s.reg.committeeId, s.vault.pairs[c.source], c.amount, c.receiver, s.vault.requestNonce));
  }

  lemma SendNativeMeans(s: State, c: Call)
    requires NoncesOk(s.vault) && c.SendNative? && ApplySendNative(s, c).Ok?
    ensures FromAddress(s.vault.weth) in s.vault.pairs
    ensures LockedUp(s, ApplySendNative(s, c).value, s.vault.weth, s.vault.pairs[FromAddress(s.vault.weth)], c.value,
                     c.receiver)
  {
    LockMeans(s, s.vault.weth,
              Request(s.reg.committeeId, s.vault.pairs[FromAddress(s.vault.weth)], c.value, c.receiver,
                      s.vault.requestNonce));
  }

  // ----- releasing

  /** The request is delivered exactly if the receiver can be paid and the escrow has the amount. What is
      delivered leaves the escrow of its token, and so does wrapped ether, which otherwise stays behind
      as ether; anything else stays where it is; and nothing else changes. */
  ghost predicate PaidOut(v: Vault, v': Vault, r: Request, deliverOk: bool, delivered: bool) {
    var token := ToAddress(r.token);
    && (delivered <==> deliverOk && r.amount <= Held(v, token))
    && Held(v', token) == (if delivered || token == v.weth then Held(v, token) - r.amount else Held(v, token))
    && v'.ether == (if token == v.weth && !delivered then v.ether + r.amount else v.ether)
    && (forall t: Address :: t != token ==> Held(v', t) == Held(v, t))
    && v' == v.(escrow := v'.escrow, ether := v'.ether)
  }

  lemma ReleaseMeans(v: Vault, c: Call)
    requires c.Receive? && Released(v, c).Ok?
    ensures PaidOut(v, Released(v, c).value.0, c.request, c.deliverOk, Released(v, c).value.1)
  {
  }

  /** The only way a release fails: wrapped ether that cannot be unwrapped. */
  lemma ReleaseFails(v: Vault, c: Call)
    requires c.Receive?
    ensures Released(v, c).Err? <==>
              ToAddress(c.request.token) == v.weth && !(c.unwrapOk && c.request.amount <= Held(v, v.weth))
  {
  }

  // ----- voting

  /** A known vote changes nothing. A first vote is on record, alone, and voting again changes nothing;
      it gets the request through exactly when it brings the counter to the request's own threshold;
      until then the counter is the number of signers, below that threshold, and nothing else moves. */
  ghost predicate VoteTaken(s: State, s': State, caller: Address, c: Call)
    requires c.Receive?
  {
    var (h, threshold) := (EthDigest(c.request), Get(s.reg.thresholds, c.request.committee, 0));
    if c.digest in s.votes.processed || (h, caller) in s.votes.signatures then s' == s
    else
      && s' == s.(votes := s'.votes, vault := s'.vault)
      && c.digest == h && s'.votes.signatures == s.votes.signatures + {(h, caller)} && Next(s', caller, c) == s'
      && (forall g :: g != h ==> Get(s'.votes.pending, g, 0) == Get(s.votes.pending, g, 0))
      && if (Get(s.votes.pending, h, 0) as nat) + 1 >= threshold then Landed(s, s', c)
         else && s'.votes == s.votes.(signatures := s'.votes.signatures, pending := s'.votes.pending)
              && Get(s'.votes.pending, h, 0) == |Voters(s'.votes, h)| < threshold && s'.vault == s.vault
  }

  /** The request is through, for the first time, signed by exactly its own threshold of members of its
      own committee, and was paid out as the receiver's answer allows. */
  ghost predicate Landed(s: State, s': State, c: Call)
    requires c.Receive?
  {
    var (r, h, n) := (c.request, EthDigest(c.request), |s.votes.releases|);
    && s'.votes.processed == s.votes.processed + {h} && h !in s'.votes.pending
    && |Voters(s'.votes, h)| == Get(s.reg.thresholds, r.committee, 0)
    && (forall a :: a in Voters(s'.votes, h) ==> IsInCommittee(s.reg, r.committee, a))
    && |s'.votes.releases| == n + 1 && s.votes.releases <= s'.votes.releases
    && s'.votes.releases[n].digest == h && s'.votes.releases[n].request == r
    && (forall i :: 0 <= i < n ==> s.votes.releases[i].digest != h)
    && PaidOut(s.vault, s'.vault, r, c.deliverOk, s'.votes.releases[n].delivered)
  }

  lemma VoteFrame(s: State, caller: Address, c: Call)
    requires c.Receive?
    ensures var (s', h) := (Next(s, caller, c), EthDigest(c.request));
            && s'.reg == s.reg
            && s.votes.processed <= s'.votes.processed <= s.votes.processed + {h}
            && s.votes.signatures <= s'.votes.signatures <= s.votes.signatures + {(h, caller)}
            && (s'.votes.processed == s.votes.processed ==>
                  s'.vault == s.vault && s'.votes.releases == s.votes.releases)
  {
    ReceiveMoves(s, caller, c);
  }

  lemma SignersSit(g: Registry, v: Ballots, r: Request)
    requires SignersOk(g, v)
    ensures forall a :: a in Voters(v, EthDigest(r)) ==> IsInCommittee(g, r.committee, a)
  {
    EthRoundTrip(r);
    forall a | a in Voters(v, EthDigest(r)) ensures IsInCommittee(g, r.committee, a) {
      assert ValidVote(g, EthDigest(r), a);
    }
  }

  lemma QuorumNow(g: Registry, v: Ballots, r: Request)
    requires QuorumsOk(g, v) && EthDigest(r) in v.processed
    ensures |Voters(v, EthDigest(r))| == Get(g.thresholds, r.committee, 0)
  {
    EthRoundTrip(r);
    assert OwnThreshold(g, EthDigest(r)) == Some(|Voters(v, EthDigest(r))|);
  }

  lemma ReleaseLogged(s: State, caller: Address, c: Call)
    requires ReleasesOk(s.votes) && c.Receive? && Next(s, caller, c).votes.processed != s.votes.processed
    ensures var (s', h, n) := (Next(s, caller, c), EthDigest(c.request), |s.votes.releases|);
            && c.digest == h && s'.votes.processed == s.votes.processed + {h} && h !in s'.votes.pending
            && |s'.votes.releases| == n + 1 && s.votes.releases <= s'.votes.releases
            && s'.votes.releases[n].digest == h && s'.votes.releases[n].request == c.request
            && (forall i :: 0 <= i < n ==> s.votes.releases[i].digest != h)
            && PaidOut(s.vault, s'.vault, c.request, c.deliverOk, s'.votes.releases[n].delivered)
  {
    var x := ReceiveEffect(s, caller, c);
    ReceiveMoves(s, caller, c);
    ReleaseMeans(s.vault, c);
  }

  lemma LandingMeans(s: State, caller: Address, c: Call)
    requires WellFormed(s) && c.Receive? && Next(s, caller, c).votes.processed != s.votes.processed
    ensures c.digest == EthDigest(c.request) && Landed(s, Next(s, caller, c), c)
  {
    var s' := Next(s, caller, c);
    VoteFrame(s, caller, c);
    VoteKeeps(s, caller, c);
    ReleaseLogged(s, caller, c);
    QuorumNow(s.reg, s'.votes, c.request);
    SignersSit(s.reg, s'.votes, c.request);
  }

  lemma OpenMeans(g: Registry, v: Ballots, r: Request)
    requires CountsOk(PollOf(v)) && QuorumsOk(g, v) && EthDigest(r) !in v.processed && r.committee in g.thresholds
    ensures Get(v.pending, EthDigest(r), 0) == |Voters(v, EthDigest(r))| < g.thresholds[r.committee]
  {
    EthRoundTrip(r);
    assert OwnThreshold(g, EthDigest(r)).Some?;
  }

  /** A first vote that goes through: what it writes besides what a landing moves. */
  lemma FirstVote(s: State, caller: Address, c: Call)
    requires c.Receive? && ApplyReceive(s, caller, c).Ok?
    requires c.digest !in s.votes.processed && (EthDigest(c.request), caller) !in s.votes.signatures
    ensures var (s', h) := (Next(s, caller, c), EthDigest(c.request));
            && s' == s.(votes := s'.votes, vault := s'.vault)
            && c.digest == h && s'.votes.signatures == s.votes.signatures + {(h, caller)}
            && (forall g :: g != h ==> Get(s'.votes.pending, g, 0) == Get(s.votes.pending, g, 0))
            && if (Get(s.votes.pending, h, 0) as nat) + 1 >= Get(s.reg.thresholds, c.request.committee, 0)
               then s'.votes.processed != s.votes.processed
               else s'.votes == s.votes.(signatures := s'.votes.signatures, pending := s'.votes.pending)
                    && s'.vault == s.vault
  {
  }

  lemma VoteMeans(s: State, caller: Address, c: Call)
    requires WellFormed(s) && c.Receive? && Apply(s, caller, c).Ok?
    ensures VoteTaken(s, Next(s, caller, c), caller, c)
  {
    var (s', h) := (Next(s, caller, c), EthDigest(c.request));
    assert IsInCommittee(s.reg, c.request.committee, caller);
    if c.digest !in s.votes.processed && (h, caller) !in s.votes.signatures {
      FirstVote(s, caller, c);
      VoteKeeps(s, caller, c);
      RecordedVoteChangesNothing(s', caller, c);
      if s'.votes.processed != s.votes.processed {
        LandingMeans(s, caller, c);
      } else {
        OpenMeans(s.reg, s'.votes, c.request);
      }
    }
  }

  // ----- committees

  /** A committee with exactly these members, its size and this threshold. */
  ghost predicate SeatedAs(g: Registry, c: U256, members: seq<Address>, threshold: nat) {
    && (forall a: Address :: IsInCommittee(g, c, a) <==> a in members)
    && c in g.thresholds && g.thresholds[c] == threshold && c in g.sizes && g.sizes[c] == |members|
  }

  /** The new committee is the list with the given threshold, and no earlier committee changed. */
  ghost predicate Rotated(g: Registry, g': Registry, c: Call)
    requires c.SetCommittee?
  {
    && g'.committeeId == g.committeeId + 1 && SeatedAs(g', g'.committeeId, c.members, c.threshold)
    && forall d: U256 :: d in g.thresholds ==>
         && d != g'.committeeId && d in g'.thresholds && g'.thresholds[d] == g.thresholds[d]
         && d in g.sizes && d in g'.sizes && g'.sizes[d] == g.sizes[d]
         && forall a: Address :: IsInCommittee(g', d, a) <==> IsInCommittee(g, d, a)
  }

  lemma SeatingMeans(g: Registry, id: U256, members: seq<Address>, threshold: U256)
    requires MaySeat(g, id, members, threshold) && forall a: Address :: !IsInCommittee(g, id, a)
    ensures Seated(g, id, members, threshold).Ok?
    ensures var g' := Seated(g, id, members, threshold).value;
            g'.committeeId == id && SeatedAs(g', id, members, threshold)
  {
    var g' := Seated(g, id, members, threshold).value;
    SeatMembers(id, members);
    forall a: Address ensures IsInCommittee(g', id, a) <==> a in members {
      assert IsInCommittee(g', id, a) <==> IsInCommittee(g, id, a) || MemberId(id, a) in Seats(id, members);
    }
  }

  lemma RotationMeans(s: State, caller: Address, c: Call)
    requires RegistryOk(s.reg) && c.SetCommittee? && May(s, caller, c)
    ensures ApplySetCommittee(s, caller, c).Ok?
    ensures ApplySetCommittee(s, caller, c).value == s.(reg := ApplySetCommittee(s, caller, c).value.reg)
    ensures Rotated(s.reg, ApplySetCommittee(s, caller, c).value.reg, c)
  {
    SeatingMeans(s.reg, s.reg.committeeId + 1, c.members, c.threshold);
    RegistryKept(s, caller, c);
  }

  /** What deployment accepts and leaves behind: paused, with exactly the given first committee. */
  lemma InitMeans(members: seq<Address>, threshold: U256, owner: Address, weth: Address, escrow: map<Address, nat>)
    ensures var r := Init(members, threshold, owner, weth, escrow);
            && (r.Ok? <==> 1 <= threshold <= |members| && Distinct(members))
            && (r.Err? ==> match r.error
                           case ZeroSignatureThreshold => threshold == 0
                           case NotEnoughGuardians => |members| < threshold
                           case DuplicateCommitteeMember => !Distinct(members)
                           case _ => false)
            && (r.Ok? ==> Founded(r.value, members, threshold, owner, weth, escrow))
  {
    var blank := Registry(0, {}, map[], map[], []);
    assert forall a: Address :: !IsInCommittee(blank, 0, a);
    if 1 <= threshold <= |members| && Distinct(members) {
      SeatingMeans(blank, 0, members, threshold);
    }
  }

  ghost predicate Founded(s: State, members: seq<Address>, threshold: U256, owner: Address, weth: Address,
                          escrow: map<Address, nat>) {
    && s.paused && s.owner == owner && s.reg.committeeId == 0 && SeatedAs(s.reg, 0, members, threshold)
    && s.votes == Ballots(map[], {}, {}, []) && s.vault.weth == weth && s.vault.escrow == escrow
    && s.vault.pairs == map[] && s.vault.sent == [] && s.vault.requestNonce == 0 && s.vault.ether == 0
  }

  lemma ConfiguredStays(s: State, caller: Address, c: Call, rest: seq<(Address, Call)>)
    requires WellFormed(s) && c.SetCommittee? && May(s, caller, c)
    ensures SeatedAs(Run(Next(s, caller, c), rest).reg, s.reg.committeeId + 1, c.members, c.threshold)
  {
    RotationMeans(s, caller, c);
    StepKeepsWellFormed(s, caller, c);
    PastCommitteesImmutable(Next(s, caller, c), rest, s.reg.committeeId + 1);
  }

  lemma {:induction false} RunAt(s: State, calls: seq<(Address, Call)>, i: nat)
    requires i < |calls|
    ensures Run(s, calls) == Run(Next(Run(s, calls[..i]), calls[i].0, calls[i].1), calls[i + 1..])
    decreases i
  {
    if i > 0 {
      var s' := Next(s, calls[0].0, calls[0].1);
      RunAt(s', calls[1..], i - 1);
      assert calls[1..][..i - 1] == calls[..i][1..] && calls[1..][i..] == calls[i + 1..];
    } else {
      assert calls[..0] == [];
    }
  }

  /** The exact quorum in terms of the calls that were made: over every run, a committee is, and stays, what
      the call that set it said, and a request of that committee is processed with exactly as many
      signers, all of them on the list, as that call said. */
  lemma QuorumAsConfigured(s0: State, calls: seq<(Address, Call)>, i: nat, h: Digest)
    requires Deployed(s0) && i < |calls| && calls[i].1.SetCommittee?
    requires May(Run(s0, calls[..i]), calls[i].0, calls[i].1)
    ensures var (id, c, s) := (Run(s0, calls[..i]).reg.committeeId + 1, calls[i].1, Run(s0, calls));
            && id < U256_LIMIT && SeatedAs(s.reg, id, c.members, c.threshold)
            && (h in s.votes.processed && EthRequestOf(h).Some? && EthRequestOf(h).value.committee == id ==>
                  |Voters(s.votes, h)| == c.threshold && forall a :: a in Voters(s.votes, h) ==> a in c.members)
  {
    DeployedWellFormed(s0);
    RunKeepsWellFormed(s0, calls[..i]);
    RunAt(s0, calls, i);
    ConfiguredStays(Run(s0, calls[..i]), calls[i].0, calls[i].1, calls[i + 1..]);
    ExactQuorum(s0, calls, h, 0);
  }

  /** The same for the committee given at deployment. */
  lemma FirstQuorumAsConfigured(members: seq<Address>, threshold: U256, owner: Address, weth: Address,
                                escrow: map<Address, nat>, s0: State, calls: seq<(Address, Call)>, h: Digest)
    requires Init(members, threshold, owner, weth, escrow) == Ok(s0)
    ensures var s := Run(s0, calls);
            && SeatedAs(s.reg, 0, members, threshold)
            && (h in s.votes.processed && EthRequestOf(h).Some? && EthRequestOf(h).value.committee == 0 ==>
                  |Voters(s.votes, h)| == threshold && forall a :: a in Voters(s.votes, h) ==> a in members)
  {
    InitMeans(members, threshold, owner, weth, escrow);
    DeployedWellFormed(s0);
    PastCommitteesImmutable(s0, calls, 0);
    ExactQuorum(s0, calls, h, 0);
  }

  // ----- the plain functions

  /** Exactly the field the function is for. */
  ghost predicate PlainlyDone(s: State, s': State, c: Call) {
    var (v, v') := (s.vault, s'.vault);
    match c
    case Pause => s' == s.(paused := true)
    case Unpause => s' == s.(paused := false)
    case AddPair(from, to) =>
      && s' == s.(vault := v') && v' == v.(pairs := v'.pairs)
      && from in v'.pairs && v'.pairs[from] == to && v'.pairs - {from} == v.pairs - {from}
    case RemovePair(from) =>
      && s' == s.(vault := v') && v' == v.(pairs := v'.pairs)
      && from !in v'.pairs && v'.pairs == v.pairs - {from}
    case RecoverERC20(token, amount, _) =>
      && s' == s.(vault := v') && v' == v.(escrow := v'.escrow, recovered := v'.recovered)
      && MovedOnly(v'.escrow, v.escrow, token, amount) && MovedOnly(v.recovered, v'.recovered, token, amount)
    case RecoverNative(amount, _) =>
      && s' == s.(vault := v') && v' == v.(ether := v'.ether, recoveredEther := v'.recoveredEther)
      && v.ether - v'.ether == v'.recoveredEther - v.recoveredEther == amount
    case Donate(token, amount) =>
      && s' == s.(vault := v') && v' == v.(escrow := v'.escrow, donated := v'.donated)
      && MovedOnly(v.escrow, v'.escrow, token, amount) && MovedOnly(v.donated, v'.donated, token, amount)
    case ForceEther(amount) =>
      && s' == s.(vault := v') && v' == v.(ether := v'.ether, forcedEther := v'.forcedEther)
      && v'.ether - v.ether == v'.forcedEther - v.forcedEther == amount
    case _ => true
  }

  /** One entry grew by the amount. */
  ghost predicate MovedOnly(m: map<Address, nat>, m': map<Address, nat>, token: Address, amount: nat) {
    && Get(m', token, 0) == Get(m, token, 0) + amount
    && forall t :: t != token ==> Get(m', t, 0) == Get(m, t, 0)
  }

  lemma PlainMeans(s: State, caller: Address, c: Call)
    requires Apply(s, caller, c).Ok?
    ensures PlainlyDone(s, Next(s, caller, c), c)
  {
  }

  // ----- pausing

  /** Nobody but the owner can move votes, releases or requests from here. */
  ghost predicate Frozen(s: State) {
    forall calls: seq<(Address, Call)> :: (forall i :: 0 <= i < |calls| ==> calls[i].0 != s.owner) ==>
      var s' := Run(s, calls);
      s'.paused && s'.reg == s.reg && s'.votes == s.votes && s'.vault.sent == s.vault.sent
        && s'.vault.pairs == s.vault.pairs
  }

  lemma PausedIsFrozen(s: State)
    requires s.paused
    ensures Frozen(s)
  {
    forall calls: seq<(Address, Call)> | forall i :: 0 <= i < |calls| ==> calls[i].0 != s.owner
      ensures var s' := Run(s, calls);
              s'.paused && s'.reg == s.reg && s'.votes == s.votes && s'.vault.sent == s.vault.sent
                && s'.vault.pairs == s.vault.pairs
    {
      PauseFreezes(s, calls);
    }
  }
}
