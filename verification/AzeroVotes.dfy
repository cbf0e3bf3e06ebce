/** What every run of the ink! contract keeps about committees, votes, mints and token supply. */
module AzeroVotes {
  import opened Prelude
  import opened Bytes
  import opened Requests
  import opened Tally
  import Redelivery
  import opened AzeroSpec

  // ----- the invariant

  /** Committee ids are used up in order and every committee is the duplicate-free list it was set to. */
  ghost predicate RegistryOk(g: Registry) {
    && |g.rosters| == g.committeeId + 1
    && (forall c :: 0 <= c < |g.rosters| ==> Distinct(g.rosters[c]))
    && (forall c: CommitteeId :: c in g.thresholds <==> c < |g.rosters|)
    && (forall c: CommitteeId :: c in g.thresholds ==> g.thresholds[c] >= 1)
    && (forall c: CommitteeId, a: Account :: (c, a) in g.committees <==> c < |g.rosters| && a in g.rosters[c])
    && g.sizes.Keys == {0} && g.sizes[0] == |g.rosters[0]|
  }

  /** `h` decodes to a request and `a` sits on the committee named in it. */
  ghost predicate ValidVote(g: Registry, h: Digest, a: Account) {
    AzRequestOf(h).Some? && (AzRequestOf(h).value.committee, a) in g.committees
  }

  ghost function PollOf(v: Ballots): Poll<Account> {
    Poll(v.pending, v.signatures, v.processed)
  }

  ghost predicate VotesOk(g: Registry, v: Ballots) {
    CountsOk(PollOf(v)) && forall x :: x in v.signatures ==> ValidVote(g, x.0, x.1)
  }

  ghost predicate Justified(g: Registry, v: Ballots, m: Mint) {
    && m.digest == AzDigest(m.request)
    && m.request.committee <= m.judgedBy
    && m.judgedBy in g.thresholds
    && |Voters(v, m.digest)| >= g.thresholds[m.judgedBy]
  }

  ghost predicate MintedAt(v: Ballots, h: Digest, i: int) {
    0 <= i < |v.minted| && v.minted[i].digest == h
  }

  ghost predicate MintsOk(g: Registry, v: Ballots) {
    && (forall i, j :: 0 <= i < j < |v.minted| ==> v.minted[i].digest != v.minted[j].digest)
    && (forall i :: 0 <= i < |v.minted| ==> v.minted[i].digest in v.processed && Justified(g, v, v.minted[i]))
    && (forall h :: h in v.processed ==> exists i :: MintedAt(v, h, i))
  }

  ghost predicate NoncesOk(t: Tokens) {
    |t.sent| == t.requestNonce && forall i :: 0 <= i < |t.sent| ==> t.sent[i].request.nonce == i
  }

  ghost predicate WellFormed(s: State) {
    RegistryOk(s.reg) && VotesOk(s.reg, s.votes) && MintsOk(s.reg, s.votes) && NoncesOk(s.tokens)
  }

  // ----- every message keeps it

  /** Past entries of the registry stay. */
  ghost predicate Extends(g: Registry, g': Registry) {
    && g.rosters <= g'.rosters && g.committees <= g'.committees
    && forall d :: d in g.thresholds ==> d in g'.thresholds && g'.thresholds[d] == g.thresholds[d]
  }

  lemma RosterMembers(c: CommitteeId, members: seq<Account>)
    ensures forall d: CommitteeId, a: Account :: (d, a) in Roster(c, members) <==> d == c && a in members
  {
  }

  lemma AppendKeeps(g: Registry, g': Registry, members: seq<Account>, threshold: U128)
    requires RegistryOk(g) && g.committeeId + 1 < U128_LIMIT && Distinct(members) && threshold >= 1
    requires g' == Registry(g.committeeId + 1, g.committees + Roster(g.committeeId + 1, members), g.sizes,
                            g.thresholds[g.committeeId + 1 := threshold], g.rosters + [members])
    ensures RegistryOk(g') && Extends(g, g')
  {
    RosterMembers(g.committeeId + 1, members);
  }

  lemma RotationKeeps(s: State, caller: Account, c: Call)
    requires RegistryOk(s.reg) && s.reg.committeeId + 1 < U128_LIMIT && c.SetCommittee?
    ensures var g' := Next(s, caller, c).reg;
            RegistryOk(g') && Extends(s.reg, g') && g'.committeeId <= s.reg.committeeId + 1
  {
    var g' := Next(s, caller, c).reg;
    if g' != s.reg {
      AppendKeeps(s.reg, g', c.members, c.threshold);
    }
  }

  lemma RegistryKept(s: State, caller: Account, c: Call)
    requires RegistryOk(s.reg) && (c.SetCommittee? ==> s.reg.committeeId + 1 < U128_LIMIT)
    ensures var g' := Next(s, caller, c).reg;
            RegistryOk(g') && Extends(s.reg, g') && g'.committeeId <= s.reg.committeeId + 1
  {
    if c.SetCommittee? {
      RotationKeeps(s, caller, c);
    } else {
      Frame(s, caller, c);
    }
  }

  /** A counted vote, with the mint logged if the hash is through. */
  ghost predicate Counted(v: Ballots, v': Ballots, a: Account, m: Mint, threshold: nat) {
    && Tally.Counted(PollOf(v), PollOf(v'), m.digest, a, threshold)
    && v'.minted == if m.digest in v'.processed then v.minted + [m] else v.minted
  }

  lemma ReceiveEffect(s: State, caller: Account, c: Call)
    requires c.Receive? && Next(s, caller, c).votes != s.votes
    ensures c.digest == AzDigest(c.request) && (c.request.committee, caller) in s.reg.committees && !s.halted
    ensures s.reg.committeeId in s.reg.thresholds
    ensures Counted(s.votes, Next(s, caller, c).votes, caller, Mint(c.digest, c.request, s.reg.committeeId),
                    s.reg.thresholds[s.reg.committeeId])
  {
  }

  lemma VotesOkInExtension(g: Registry, g': Registry, v: Ballots)
    requires VotesOk(g, v) && MintsOk(g, v) && Extends(g, g')
    ensures VotesOk(g', v) && MintsOk(g', v)
  {
  }

  /** A logged mint stays justified: signatures are only ever added. */
  lemma JustifiedStays(g: Registry, v: Ballots, v': Ballots, h: Digest, a: Account, m: Mint)
    requires Justified(g, v, m) && v'.signatures == v.signatures + {(h, a)}
    ensures Justified(g, v', m)
  {
    SignersAfterVote(v.signatures, h, a);
    SubsetCardinality(Voters(v, m.digest), Voters(v', m.digest));
  }

  lemma MintIsLogged(v: Ballots, v': Ballots, a: Account, m: Mint, threshold: nat, h: Digest)
    requires Counted(v, v', a, m, threshold) && h in v'.processed
    requires h in v.processed ==> exists i :: MintedAt(v, h, i)
    ensures exists i :: MintedAt(v', h, i)
  {
    if h in v.processed {
      var i :| MintedAt(v, h, i);
      assert MintedAt(v', h, i);
    } else {
      assert MintedAt(v', h, |v.minted|);
    }
  }

  lemma CountedKeepsMints(g: Registry, v: Ballots, v': Ballots, a: Account, m: Mint, threshold: nat)
    requires CountsOk(PollOf(v)) && MintsOk(g, v) && Counted(v, v', a, m, threshold)
    requires m.digest == AzDigest(m.request) && m.request.committee <= m.judgedBy
    requires m.judgedBy in g.thresholds && g.thresholds[m.judgedBy] == threshold
    ensures MintsOk(g, v')
  {
    SignersAfterVote(v.signatures, m.digest, a);
    forall i | 0 <= i < |v'.minted| ensures v'.minted[i].digest in v'.processed && Justified(g, v', v'.minted[i]) {
      if i < |v.minted| {
        JustifiedStays(g, v, v', m.digest, a, v.minted[i]);
      }
    }
    forall h | h in v'.processed ensures exists i :: MintedAt(v', h, i) {
      MintIsLogged(v, v', a, m, threshold, h);
    }
  }

  lemma VoteKeeps(s: State, caller: Account, c: Call)
    requires RegistryOk(s.reg) && VotesOk(s.reg, s.votes) && MintsOk(s.reg, s.votes) && c.Receive?
    ensures VotesOk(s.reg, Next(s, caller, c).votes) && MintsOk(s.reg, Next(s, caller, c).votes)
  {
    var (g, v') := (s.reg, Next(s, caller, c).votes);
    if v' != s.votes {
      ReceiveEffect(s, caller, c);
      AzRoundTrip(c.request);
      var (m, threshold) := (Mint(c.digest, c.request, g.committeeId), g.thresholds[g.committeeId]);
      CountedKeepsCounts(PollOf(s.votes), PollOf(v'), m.digest, caller, threshold);
      CountedKeepsMints(g, s.votes, v', caller, m, threshold);
    }
  }

  /** A successful send books the fee, burns the amount and logs the request under the next nonce. */
  lemma SendEffect(s: State, c: Call)
    requires c.Send? && ApplySend(s, c).Ok?
    ensures var (t, t') := (s.tokens, ApplySend(s, c).value.tokens);
            && c.source in t.pairs && c.amount <= Get(t.supply, c.source, 0)
            && t'.supply == t.supply[c.source := Get(t.supply, c.source, 0) - c.amount]
            && t'.heldBurned == t.heldBurned && t'.pairs == t.pairs
            && |t'.sent| == |t.sent| + 1 && t'.sent == t.sent + [t'.sent[|t.sent|]]
            && t'.requestNonce == t.requestNonce + 1
            && var x := t'.sent[|t.sent|];
               && x.source == c.source && x.request.amount == c.amount && x.request.nonce == t.requestNonce
               && x.request.token == t.pairs[c.source]
  {
  }

  lemma NoncesKept(s: State, caller: Account, c: Call)
    requires NoncesOk(s.tokens)
    ensures NoncesOk(Next(s, caller, c).tokens)
  {
    if c.Send? && ApplySend(s, c).Ok? {
      SendEffect(s, c);
    } else {
      assert Next(s, caller, c).tokens.sent == s.tokens.sent;
      assert Next(s, caller, c).tokens.requestNonce == s.tokens.requestNonce;
    }
  }

  lemma StepKeepsWellFormed(s: State, caller: Account, c: Call)
    requires WellFormed(s) && (c.SetCommittee? ==> s.reg.committeeId + 1 < U128_LIMIT)
    ensures WellFormed(Next(s, caller, c)) && Extends(s.reg, Next(s, caller, c).reg)
    ensures Next(s, caller, c).reg.committeeId <= s.reg.committeeId + 1
  {
    Frame(s, caller, c);
    RegistryKept(s, caller, c);
    NoncesKept(s, caller, c);
    if c.Receive? {
      VoteKeeps(s, caller, c);
    } else {
      VotesOkInExtension(s.reg, Next(s, caller, c).reg, s.votes);
    }
  }

  lemma {:induction false} RunKeepsWellFormed(s: State, calls: seq<(Account, Call)>)
    requires WellFormed(s) && s.reg.committeeId + |calls| < U128_LIMIT
    ensures WellFormed(Run(s, calls)) && Extends(s.reg, Run(s, calls).reg)
    decreases |calls|
  {
    if calls != [] {
      StepKeepsWellFormed(s, calls[0].0, calls[0].1);
      RunKeepsWellFormed(Next(s, calls[0].0, calls[0].1), calls[1..]);
    }
  }

  lemma DeployedWellFormed(s: State)
    requires Deployed(s)
    ensures WellFormed(s) && s.reg.committeeId == 0 && s.votes == Ballots(map[], {}, {}, [])
    ensures s.funds == Funds(map[], map[], s.funds.pocketMoney, 0, s.funds.balance, 0, 0, 0)
    ensures s.tokens == Tokens(0, map[], [], s.tokens.supply, map[])
  {
    assert forall h :: Voters(s.votes, h) == {};
  }

  // ----- main results over whole runs

  /** The stored counter refines the signature set, across rotations and halts: an unprocessed hash
      counts exactly its signers, a processed hash has no pending entry, every signer belongs to the
      committee inside the hashed data, and a processed hash was signed by at least as many accounts
      as the threshold of the committee active at that moment. */
  lemma CounterRefinesSignatures(s0: State, calls: seq<(Account, Call)>, h: Digest)
    requires Deployed(s0) && |calls| < U128_LIMIT
    ensures var (g, v) := (Run(s0, calls).reg, Run(s0, calls).votes);
            && (h !in v.processed ==> Get(v.pending, h, 0) == |Voters(v, h)|)
            && (h in v.processed ==> h !in v.pending)
            && (forall a :: a in Voters(v, h) ==>
                  AzRequestOf(h).Some? && a in Members(g, AzRequestOf(h).value.committee))
            && (h in v.processed ==>
                  exists i :: MintedAt(v, h, i) && v.minted[i].judgedBy in g.thresholds &&
                              |Voters(v, h)| >= g.thresholds[v.minted[i].judgedBy])
  {
    DeployedWellFormed(s0);
    RunKeepsWellFormed(s0, calls);
    var (g, v) := (Run(s0, calls).reg, Run(s0, calls).votes);
    forall a | a in Voters(v, h)
      ensures AzRequestOf(h).Some? && a in Members(g, AzRequestOf(h).value.committee)
    {
      assert ValidVote(g, h, a);
      assert (AzRequestOf(h).value.committee, a) in g.committees;
    }
    if h in v.processed {
      var i :| MintedAt(v, h, i);
      assert Justified(g, v, v.minted[i]);
    }
  }

  /** Past committees and thresholds never change again. */
  lemma PastCommitteesImmutable(s: State, calls: seq<(Account, Call)>, c: CommitteeId)
    requires WellFormed(s) && s.reg.committeeId + |calls| < U128_LIMIT && c in s.reg.thresholds
    ensures var (g, g') := (s.reg, Run(s, calls).reg);
            c in g'.thresholds && g'.thresholds[c] == g.thresholds[c] && Members(g', c) == Members(g, c)
  {
    RunKeepsWellFormed(s, calls);
    var (g, g') := (s.reg, Run(s, calls).reg);
    forall a ensures a in Members(g', c) <==> a in Members(g, c) {
      assert (c, a) in g'.committees <==> (c, a) in g.committees;
    }
  }

  // ----- token supply

  function BurnWeight(token: Bytes32): Sent -> nat {
    (x: Sent) => if x.source == token then x.request.amount else 0
  }

  function MintWeight(token: Bytes32): Mint -> nat {
    (x: Mint) => if x.request.token == token then x.request.amount else 0
  }

  ghost predicate SupplyBalanced(s: State, initial: map<Bytes32, nat>, token: Bytes32) {
    Get(s.tokens.supply, token, 0) + SumBy(s.tokens.sent, BurnWeight(token)) + Get(s.tokens.heldBurned, token, 0)
      == Get(initial, token, 0) + SumBy(s.votes.minted, MintWeight(token))
  }

  lemma BurnKeepsSupply(s: State, s': State, initial: map<Bytes32, nat>, token: Bytes32, x: Sent)
    requires SupplyBalanced(s, initial, token) && s'.votes == s.votes
    requires s'.tokens.sent == s.tokens.sent + [x] && s'.tokens.heldBurned == s.tokens.heldBurned
    requires x.request.amount <= Get(s.tokens.supply, x.source, 0)
    requires s'.tokens.supply == s.tokens.supply[x.source := Get(s.tokens.supply, x.source, 0) - x.request.amount]
    ensures SupplyBalanced(s', initial, token)
  {
    SumBySnoc(s.tokens.sent, x, BurnWeight(token));
  }

  lemma SendKeepsSupply(s: State, initial: map<Bytes32, nat>, token: Bytes32, caller: Account, c: Call)
    requires SupplyBalanced(s, initial, token) && c.Send?
    ensures SupplyBalanced(Next(s, caller, c), initial, token)
  {
    if ApplySend(s, c).Ok? {
      SendEffect(s, c);
      Frame(s, caller, c);
      var s' := ApplySend(s, c).value;
      BurnKeepsSupply(s, s', initial, token, s'.tokens.sent[|s.tokens.sent|]);
    }
  }

  lemma MintKeepsSupply(s: State, s': State, initial: map<Bytes32, nat>, token: Bytes32, m: Mint)
    requires SupplyBalanced(s, initial, token) && s'.votes.minted == s.votes.minted + [m]
    requires s'.tokens.sent == s.tokens.sent && s'.tokens.heldBurned == s.tokens.heldBurned
    requires s'.tokens.supply ==
             s.tokens.supply[m.request.token := Get(s.tokens.supply, m.request.token, 0) + m.request.amount]
    ensures SupplyBalanced(s', initial, token)
  {
    SumBySnoc(s.votes.minted, m, MintWeight(token));
  }

  /** A vote leaves mints and tokens alone or adds one mint and its amount. */
  lemma ReceiveMoves(s: State, caller: Account, c: Call)
    requires c.Receive?
    ensures var s' := Next(s, caller, c);
            || (s'.votes.minted == s.votes.minted && s'.tokens == s.tokens)
            || (s'.votes.minted == s.votes.minted + [Mint(c.digest, c.request, s.reg.committeeId)]
                && s'.tokens == s.tokens.(supply := s.tokens.supply[
                     c.request.token := Get(s.tokens.supply, c.request.token, 0) + c.request.amount]))
  {
  }

  lemma ReceiveKeepsSupply(s: State, initial: map<Bytes32, nat>, token: Bytes32, caller: Account, c: Call)
    requires SupplyBalanced(s, initial, token) && c.Receive?
    ensures SupplyBalanced(Next(s, caller, c), initial, token)
  {
    ReceiveMoves(s, caller, c);
    if Next(s, caller, c).votes.minted != s.votes.minted {
      MintKeepsSupply(s, Next(s, caller, c), initial, token, Mint(c.digest, c.request, s.reg.committeeId));
    }
  }

  lemma SupplyKept(s: State, initial: map<Bytes32, nat>, token: Bytes32, caller: Account, c: Call)
    requires SupplyBalanced(s, initial, token)
    ensures SupplyBalanced(Next(s, caller, c), initial, token)
  {
    if c.Send? {
      SendKeepsSupply(s, initial, token, caller, c);
    } else if c.Receive? {
      ReceiveKeepsSupply(s, initial, token, caller, c);
    } else {
      Frame(s, caller, c);
      assert Next(s, caller, c).tokens.sent == s.tokens.sent;
    }
  }

  lemma {:induction false} RunKeepsSupply(s: State, initial: map<Bytes32, nat>, token: Bytes32,
                                          calls: seq<(Account, Call)>)
    requires SupplyBalanced(s, initial, token)
    ensures SupplyBalanced(Run(s, calls), initial, token)
    decreases |calls|
  {
    if calls != [] {
      SupplyKept(s, initial, token, calls[0].0, calls[0].1);
      RunKeepsSupply(Next(s, calls[0].0, calls[0].1), initial, token, calls[1..]);
    }
  }

  /** Every hash is minted at most once, sent requests carry the nonces 0..n-1 in order, and a
      token's supply is its initial supply minus what was burned by requests and by holders plus
      the amounts of the processed requests. */
  lemma MintOnceAndSupplyLedger(s0: State, calls: seq<(Account, Call)>, token: Bytes32)
    requires Deployed(s0) && |calls| < U128_LIMIT
    ensures var (v, t) := (Run(s0, calls).votes, Run(s0, calls).tokens);
            && (forall i, j :: 0 <= i < j < |v.minted| ==> v.minted[i].digest != v.minted[j].digest)
            && (forall i :: 0 <= i < |v.minted| ==>
                  v.minted[i].digest in v.processed && v.minted[i].digest == AzDigest(v.minted[i].request))
            && |t.sent| == t.requestNonce
            && (forall i :: 0 <= i < |t.sent| ==> t.sent[i].request.nonce == i)
            && Get(t.supply, token, 0) + SumBy(t.sent, BurnWeight(token)) + Get(t.heldBurned, token, 0)
                 == Get(s0.tokens.supply, token, 0) + SumBy(v.minted, MintWeight(token))
  {
    DeployedWellFormed(s0);
    RunKeepsWellFormed(s0, calls);
    RunKeepsSupply(s0, s0.tokens.supply, token, calls);
  }

  // ----- whose quorum?

  /** Thresholds that never drop across rotations give every mint the quorum of its own committee. */
  lemma OwnQuorumUnderRisingThresholds(s0: State, calls: seq<(Account, Call)>, i: nat)
    requires Deployed(s0) && |calls| < U128_LIMIT
    requires i < |Run(s0, calls).votes.minted|
    requires var t := Run(s0, calls).reg.thresholds; forall c, d :: c in t && d in t && c <= d ==> t[c] <= t[d]
    ensures var (g, v) := (Run(s0, calls).reg, Run(s0, calls).votes);
            var m := v.minted[i];
            m.request.committee in g.thresholds && |Voters(v, m.digest)| >= g.thresholds[m.request.committee]
  {
    DeployedWellFormed(s0);
    RunKeepsWellFormed(s0, calls);
    assert Justified(Run(s0, calls).reg, Run(s0, calls).votes, Run(s0, calls).votes.minted[i]);
  }

  function Ballot(r: AzRequest): Call {
    Receive(AzDigest(r), r, true, true)
  }

  function VotesFrom(r: AzRequest, voters: seq<Account>): seq<(Account, Call)> {
    seq(|voters|, i requires 0 <= i < |voters| => (voters[i], Ballot(r)))
  }

  lemma {:induction false} RunSnoc(s: State, calls: seq<(Account, Call)>, caller: Account, c: Call)
    ensures Run(s, calls + [(caller, c)]) == Next(Run(s, calls), caller, c)
    decreases |calls|
  {
    if calls == [] {
      assert [(caller, c)][1..] == [];
      assert Run(s, [(caller, c)]) == Run(Next(s, caller, c), []);
    } else {
      assert (calls + [(caller, c)])[1..] == calls[1..] + [(caller, c)];
      RunSnoc(Next(s, calls[0].0, calls[0].1), calls[1..], caller, c);
    }
  }

  lemma RunThree(s: State, a: (Account, Call), b: (Account, Call), c: (Account, Call))
    ensures Run(s, [a, b, c]) == Next(Next(Next(s, a.0, a.1), b.0, b.1), c.0, c.1)
  {
    RunSnoc(s, [], a.0, a.1);
    RunSnoc(s, [a], b.0, b.1);
    RunSnoc(s, [a, b], c.0, c.1);
    assert [] + [a] == [a] && [a] + [b] == [a, b] && [a, b] + [c] == [a, b, c];
  }

  /** `r` is open for votes, with exactly these votes in. */
  ghost predicate Collecting(s: State, r: AzRequest, voters: set<Account>) {
    && !s.halted && s.reg.committeeId in s.reg.thresholds && AzDigest(r) !in s.votes.processed
    && Voters(s.votes, AzDigest(r)) == voters && Get(s.votes.pending, AzDigest(r), 0) == |voters|
  }

  lemma OneMoreVote(s: State, r: AzRequest, voters: set<Account>, a: Account)
    requires Collecting(s, r, voters) && a !in voters && (r.committee, a) in s.reg.committees
    requires |voters| + 1 < U128_LIMIT
    ensures var s' := Next(s, a, Ballot(r));
            && s'.reg == s.reg && Voters(s'.votes, AzDigest(r)) == voters + {a}
            && if |voters| + 1 < s.reg.thresholds[s.reg.committeeId]
               then Collecting(s', r, voters + {a}) else AzDigest(r) in s'.votes.processed
  {
    assert (AzDigest(r), a) !in s.votes.signatures by {
      assert a !in Voters(s.votes, AzDigest(r));
    }
    ReceiveEffect(s, a, Ballot(r));
    SignersAfterVote(s.votes.signatures, AzDigest(r), a);
    Frame(s, a, Ballot(r));
  }

  /** Distinct members of the request's committee who have not voted for it yet. */
  ghost predicate Newcomers(s: State, r: AzRequest, voters: seq<Account>) {
    && Distinct(voters)
    && forall a :: a in voters ==> (r.committee, a) in s.reg.committees && a !in Voters(s.votes, AzDigest(r))
  }

  lemma VoteAfter(s: State, r: AzRequest, front: seq<Account>, voters: set<Account>, a: Account)
    requires Collecting(Run(s, VotesFrom(r, front)), r, voters) && Run(s, VotesFrom(r, front)).reg == s.reg
    requires a !in voters && (r.committee, a) in s.reg.committees && |voters| + 1 < U128_LIMIT
    ensures var s' := Run(s, VotesFrom(r, front + [a]));
            && s'.reg == s.reg && Voters(s'.votes, AzDigest(r)) == voters + {a}
            && s.reg.committeeId in s.reg.thresholds
            && if |voters| + 1 < s.reg.thresholds[s.reg.committeeId]
               then Collecting(s', r, voters + {a}) else AzDigest(r) in s'.votes.processed
  {
    assert VotesFrom(r, front + [a]) == VotesFrom(r, front) + [(a, Ballot(r))];
    RunSnoc(s, VotesFrom(r, front), a, Ballot(r));
    OneMoreVote(Run(s, VotesFrom(r, front)), r, voters, a);
  }

  lemma {:induction false} VotesBelowThreshold(s: State, r: AzRequest, base: set<Account>, voters: seq<Account>)
    requires Collecting(s, r, base) && Newcomers(s, r, voters)
    requires voters == [] || |base| + |voters| < s.reg.thresholds[s.reg.committeeId]
    ensures Collecting(Run(s, VotesFrom(r, voters)), r, base + Elements(voters))
    ensures Run(s, VotesFrom(r, voters)).reg == s.reg && |base + Elements(voters)| == |base| + |voters|
    decreases |voters|
  {
    if voters == [] {
      assert VotesFrom(r, voters) == [] && base + Elements(voters) == base;
    } else {
      var (front, a) := (voters[..|voters| - 1], voters[|voters| - 1]);
      assert voters == front + [a];
      VotesBelowThreshold(s, r, base, front);
      VoteAfter(s, r, front, base + Elements(front), a);
      assert base + Elements(voters) == base + Elements(front) + {a};
    }
  }

  function Max(a: nat, b: nat): nat {
    if a < b then b else a
  }

  lemma VotesToThreshold(s: State, r: AzRequest, base: set<Account>, voters: seq<Account>)
    requires Collecting(s, r, base) && Newcomers(s, r, voters)
    requires |base| + |voters| == Max(|base| + 1, s.reg.thresholds[s.reg.committeeId]) < U128_LIMIT
    ensures AzDigest(r) !in Run(s, VotesFrom(r, voters[..|voters| - 1])).votes.processed
    ensures var s' := Run(s, VotesFrom(r, voters));
            AzDigest(r) in s'.votes.processed && |Voters(s'.votes, AzDigest(r))| == |base| + |voters|
  {
    var (front, a) := (voters[..|voters| - 1], voters[|voters| - 1]);
    assert voters == front + [a];
    VotesBelowThreshold(s, r, base, front);
    VoteAfter(s, r, front, base + Elements(front), a);
  }

  /** How many votes get a request minted, whatever votes it already holds and whatever committees were
      set since: newcomers fill up to the threshold of the active committee, and at least one more
      vote is needed if a rotation lowered it past the votes already in. With one newcomer less the
      request stays open. The quorum of the request's own committee is then reached if and only if
      its threshold is at most that number. */
  lemma ActiveThresholdDecides(s: State, r: AzRequest, voters: seq<Account>)
    requires WellFormed(s) && !s.halted && AzDigest(r) !in s.votes.processed && r.committee in s.reg.thresholds
    requires var needed := Max(|Voters(s.votes, AzDigest(r))| + 1, s.reg.thresholds[s.reg.committeeId]);
             Newcomers(s, r, voters) && |Voters(s.votes, AzDigest(r))| + |voters| == needed < U128_LIMIT
    ensures AzDigest(r) !in Run(s, VotesFrom(r, voters[..|voters| - 1])).votes.processed
    ensures var needed := Max(|Voters(s.votes, AzDigest(r))| + 1, s.reg.thresholds[s.reg.committeeId]);
            var s' := Run(s, VotesFrom(r, voters));
            && AzDigest(r) in s'.votes.processed && |Voters(s'.votes, AzDigest(r))| == needed
            && (|Voters(s'.votes, AzDigest(r))| >= s.reg.thresholds[r.committee]
                <==> s.reg.thresholds[r.committee] <= needed)
  {
    VotesToThreshold(s, r, Voters(s.votes, AzDigest(r)), voters);
  }

  /** A vote that gets the request minted. */
  ghost predicate MintsNow(s: State, caller: Account, c: Call) {
    c.Receive? && Next(s, caller, c).votes.minted != s.votes.minted
  }

  /** A mint has the quorum of the request's own committee exactly when the counter before the call
      was at most one short of it. */
  lemma OwnQuorumOfMint(s: State, caller: Account, c: Call)
    requires WellFormed(s) && MintsNow(s, caller, c)
    ensures c.request.committee in s.reg.thresholds
    ensures |Voters(Next(s, caller, c).votes, c.digest)| == Get(s.votes.pending, c.digest, 0) + 1
    ensures |Voters(Next(s, caller, c).votes, c.digest)| >= s.reg.thresholds[c.request.committee]
            <==> Get(s.votes.pending, c.digest, 0) + 1 >= s.reg.thresholds[c.request.committee]
  {
    ReceiveEffect(s, caller, c);
    SignersAfterVote(s.votes.signatures, c.digest, caller);
  }

  /** The guards a vote must pass to mint, all of them readable before the call: the first vote of a
      member, for the data it names, that brings the counter to the active threshold. */
  predicate ReachesThreshold(s: State, caller: Account, c: Call)
    requires c.Receive?
  {
    var count := (Get(s.votes.pending, c.digest, 0) as nat) + 1;
    && !s.halted && (c.request.committee, caller) in s.reg.committees && c.digest == AzDigest(c.request)
    && c.digest !in s.votes.processed && (c.digest, caller) !in s.votes.signatures && c.mintOk
    && s.reg.committeeId in s.reg.thresholds && s.reg.thresholds[s.reg.committeeId] <= count < U128_LIMIT
  }

  lemma ReachingMints(s: State, caller: Account, c: Call)
    requires c.Receive?
    ensures MintsNow(s, caller, c) <==> ReachesThreshold(s, caller, c)
  {
    ReceiveMoves(s, caller, c);
  }

  /** Exactly which calls mint below the quorum of the request's own committee: those that reach the
      active threshold with a counter still short of the own one. */
  lemma MintsBelowOwnQuorum(s: State, caller: Account, c: Call)
    requires WellFormed(s) && c.Receive?
    ensures var own := Get(s.reg.thresholds, c.request.committee, 0);
            MintsNow(s, caller, c) && |Voters(Next(s, caller, c).votes, c.digest)| < own
            <==> ReachesThreshold(s, caller, c) && (Get(s.votes.pending, c.digest, 0) as nat) + 1 < own
  {
    ReachingMints(s, caller, c);
    if MintsNow(s, caller, c) {
      OwnQuorumOfMint(s, caller, c);
    }
  }

  lemma UndercutSetup(s0: State, s2: State)
    requires Init([1, 2], 2, 0, 9, 0, map[]) == Ok(s0)
    requires s2 == Next(Next(s0, 9, SetCommittee([3], 1)), 9, SetHalted(false))
    ensures !s2.halted && s2.reg.committeeId == 1 && (0, 1) in s2.reg.committees
            && s2.votes == Ballots(map[], {}, {}, [])
    ensures s2.reg.thresholds == map[0 := 2, 1 := 1]
  {
    assert Distinct([1, 2]) && Distinct([3]);
    assert (0, 1) in Roster(0, [1, 2]) by { assert [1, 2][0] == 1; }
  }

  /** A run from deployment: a committee of two with threshold two is replaced by a committee of one,
      and a single vote of an old guardian then mints a request of the old committee. */
  lemma RotationUndercutsQuorum(s0: State, r: AzRequest)
    requires Init([1, 2], 2, 0, 9, 0, map[]) == Ok(s0) && r.committee == 0
    ensures var s := Run(s0, [(9, SetCommittee([3], 1)), (9, SetHalted(false)), (1, Ballot(r))]);
            && AzDigest(r) in s.votes.processed && Voters(s.votes, AzDigest(r)) == {1}
            && s.reg.thresholds == map[0 := 2, 1 := 1]
  {
    var s2 := Next(Next(s0, 9, SetCommittee([3], 1)), 9, SetHalted(false));
    RunThree(s0, (9, SetCommittee([3], 1)), (9, SetHalted(false)), (1, Ballot(r)));
    UndercutSetup(s0, s2);
    assert Voters(s2.votes, AzDigest(r)) == {};
    OneMoreVote(s2, r, {}, 1);
  }

  // ----- halting

  lemma OutsiderWhileHalted(s: State, caller: Account, c: Call)
    requires s.halted && caller != s.owner
    ensures var s' := Next(s, caller, c);
            && s'.halted && s'.owner == s.owner && s'.reg == s.reg && s'.votes == s.votes
            && s'.funds.paid == s.funds.paid && s'.funds.collected == s.funds.collected
            && s'.tokens.sent == s.tokens.sent && s'.tokens.pairs == s.tokens.pairs
  {
    Frame(s, caller, c);
  }

  /** While halted, and as long as the owner does not act, votes, mints, requests and rewards stand still. */
  lemma {:induction false} HaltFreezes(s: State, calls: seq<(Account, Call)>)
    requires s.halted && forall i :: 0 <= i < |calls| ==> calls[i].0 != s.owner
    ensures var s' := Run(s, calls);
            && s'.halted && s'.reg == s.reg && s'.votes == s.votes
            && s'.funds.paid == s.funds.paid && s'.funds.collected == s.funds.collected
            && s'.tokens.sent == s.tokens.sent && s'.tokens.pairs == s.tokens.pairs
    decreases |calls|
  {
    if calls != [] {
      assert calls[0].0 != s.owner;
      OutsiderWhileHalted(s, calls[0].0, calls[0].1);
      HaltFreezes(Next(s, calls[0].0, calls[0].1), calls[1..]);
    }
  }

  // ----- delivering a vote again

  /** The contract knows this vote: it was counted, or the request is already through. */
  ghost predicate Recorded(s: State, caller: Account, r: AzRequest) {
    AzDigest(r) in s.votes.processed || (AzDigest(r), caller) in s.votes.signatures
  }

  lemma VoteIsRecorded(s: State, caller: Account, c: Call)
    requires c.Receive? && c.digest == AzDigest(c.request) && Apply(s, caller, c).Ok?
    ensures Recorded(Next(s, caller, c), caller, c.request)
  {
  }

  lemma RecordedStays(s: State, caller: Account, r: AzRequest, other: Account, c: Call)
    requires Recorded(s, caller, r)
    ensures Recorded(Next(s, other, c), caller, r)
  {
    Frame(s, other, c);
  }

  lemma RecordedVoteChangesNothing(s: State, caller: Account, c: Call)
    requires c.Receive? && c.digest == AzDigest(c.request) && Recorded(s, caller, c.request)
    ensures Next(s, caller, c) == s
  {
  }

  /** The vote a call carries: one for the digest of its own request. */
  function VoteOf(k: (Account, Call)): Option<(Account, AzRequest)> {
    if k.1.Receive? && k.1.digest == AzDigest(k.1.request) then Some((k.0, k.1.request)) else None
  }

  /** This contract as far as votes go. */
  ghost function AsVoting(): Redelivery.Contract<State, (Account, Call), (Account, AzRequest)> {
    Redelivery.Contract(
      (s: State, k: (Account, Call)) => Next(s, k.0, k.1),
      (k: (Account, Call)) => VoteOf(k),
      (s: State, k: (Account, Call)) => Apply(s, k.0, k.1).Ok?,
      (s: State, v: (Account, AzRequest)) => Recorded(s, v.0, v.1))
  }

  lemma CountsVotesOnce()
    ensures Redelivery.CountsOnce(AsVoting())
  {
    var c := AsVoting();
    forall s: State, k: (Account, Call) | VoteOf(k).Some? && Apply(s, k.0, k.1).Ok?
      ensures Recorded(Next(s, k.0, k.1), k.0, k.1.request)
    {
      VoteIsRecorded(s, k.0, k.1);
    }
    forall s: State, k: (Account, Call), v: (Account, AzRequest) | Recorded(s, v.0, v.1)
      ensures Recorded(Next(s, k.0, k.1), v.0, v.1)
    {
      RecordedStays(s, v.0, v.1, k.0, k.1);
    }
    forall s: State, k: (Account, Call) | VoteOf(k).Some? && Recorded(s, k.0, k.1.request)
      ensures Next(s, k.0, k.1) == s
    {
      RecordedVoteChangesNothing(s, k.0, k.1);
    }
  }

  lemma {:induction false} RunAsVoting(s: State, calls: seq<(Account, Call)>)
    ensures Redelivery.Run(AsVoting(), s, calls) == Run(s, calls)
    decreases |calls|
  {
    if calls != [] {
      RunAsVoting(Next(s, calls[0].0, calls[0].1), calls[1..]);
    }
  }

  /** The run with every vote dropped that repeats one already delivered successfully. */
  ghost function WithoutRedeliveries(s: State, delivered: set<(Account, AzRequest)>, calls: seq<(Account, Call)>)
    : seq<(Account, Call)>
  {
    Redelivery.Without(AsVoting(), s, delivered, calls)
  }

  /** Nothing is left to drop. */
  lemma NoRedeliveriesLeft(s: State, delivered: set<(Account, AzRequest)>, calls: seq<(Account, Call)>)
    ensures var kept := WithoutRedeliveries(s, delivered, calls); WithoutRedeliveries(s, delivered, kept) == kept
  {
    Redelivery.NothingLeft(AsVoting(), s, delivered, calls);
  }

  /** Exactly-once effect: re-delivered votes, interleaved with anything else, leave the same state,
      hence the same processed set and the same mints, as if they had been sent once. */
  lemma RedeliveryIsInvisible(s: State, delivered: set<(Account, AzRequest)>, calls: seq<(Account, Call)>)
    requires forall d :: d in delivered ==> Recorded(s, d.0, d.1)
    ensures Run(s, WithoutRedeliveries(s, delivered, calls)) == Run(s, calls)
  {
    CountsVotesOnce();
    Redelivery.Invisible(AsVoting(), s, delivered, calls);
    RunAsVoting(s, calls);
    RunAsVoting(s, WithoutRedeliveries(s, delivered, calls));
  }
}
