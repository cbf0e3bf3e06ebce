/** What every run of the Solidity contract keeps about committees, votes and releases. */
module EthereumVotes {
  import opened Prelude
  import opened Bytes
  import opened Requests
  import opened Tally
  import Redelivery
  import opened EthereumSpec

  // ----- the invariant

  ghost predicate RegistryOk(g: Registry) {
    && |g.rosters| == g.committeeId + 1
    && (forall c :: 0 <= c < |g.rosters| ==> Distinct(g.rosters[c]))
    && (forall c: U256 :: c in g.thresholds <==> c < |g.rosters|)
    && (forall c: U256 :: c in g.thresholds ==>
          c in g.sizes && 1 <= g.thresholds[c] <= g.sizes[c] && g.sizes[c] == |g.rosters[c]|)
    && (forall c: U256, a: Address :: IsInCommittee(g, c, a) <==> c < |g.rosters| && a in g.rosters[c])
  }

  /** The threshold that decides about a hash: that of the committee named inside the request. */
  ghost function OwnThreshold(g: Registry, h: Digest): Option<U256> {
    if EthRequestOf(h).Some? && EthRequestOf(h).value.committee in g.thresholds
    then Some(g.thresholds[EthRequestOf(h).value.committee]) else None
  }

  ghost predicate ValidVote(g: Registry, h: Digest, a: Address) {
    OwnThreshold(g, h).Some? && IsInCommittee(g, EthRequestOf(h).value.committee, a)
  }

  ghost function PollOf(v: Ballots): Poll<Address> {
    Poll(v.pending, v.signatures, v.processed)
  }

  ghost predicate SignersOk(g: Registry, v: Ballots) {
    forall x :: x in v.signatures ==> ValidVote(g, x.0, x.1)
  }

  ghost predicate QuorumsOk(g: Registry, v: Ballots) {
    && (forall h :: h in v.processed ==> OwnThreshold(g, h) == Some(|Voters(v, h)|))
    && (forall h :: h !in v.processed && OwnThreshold(g, h).Some? ==> |Voters(v, h)| < OwnThreshold(g, h).value)
  }

  ghost predicate ReleasedAt(v: Ballots, h: Digest, i: int) {
    0 <= i < |v.releases| && v.releases[i].digest == h
  }

  ghost predicate ReleasesOk(v: Ballots) {
    && (forall i, j :: 0 <= i < j < |v.releases| ==> v.releases[i].digest != v.releases[j].digest)
    && (forall i :: 0 <= i < |v.releases| ==>
          v.releases[i].digest in v.processed && v.releases[i].digest == EthDigest(v.releases[i].request))
    && (forall h :: h in v.processed ==> exists i :: ReleasedAt(v, h, i))
  }

  ghost predicate NoncesOk(v: Vault) {
    |v.sent| == v.requestNonce && forall i :: 0 <= i < |v.sent| ==> v.sent[i].request.nonce == i
  }

  ghost predicate WellFormed(s: State) {
    RegistryOk(s.reg) && CountsOk(PollOf(s.votes)) && SignersOk(s.reg, s.votes) && QuorumsOk(s.reg, s.votes)
      && ReleasesOk(s.votes) && NoncesOk(s.vault)
  }

  // ----- every function keeps it

  ghost predicate Extends(g: Registry, g': Registry) {
    && g.rosters <= g'.rosters && g.committee <= g'.committee
    && (forall d :: d in g.thresholds ==> d in g'.thresholds && g'.thresholds[d] == g.thresholds[d])
    && (forall d :: d in g.sizes ==> d in g'.sizes && (d in g.thresholds ==> g'.sizes[d] == g.sizes[d]))
  }

  lemma SeatMembers(c: U256, members: seq<Address>)
    ensures forall d: U256, a: Address :: MemberId(d, a) in Seats(c, members) <==> d == c && a in members
  {
    forall d: U256, a: Address | MemberId(d, a) in Seats(c, members) ensures d == c && a in members {
      var b :| b in members && MemberId(c, b) == MemberId(d, a);
      MemberIdInjective(c, b, d, a);
    }
  }

  lemma SeatedKeeps(g: Registry, members: seq<Address>, threshold: U256)
    requires RegistryOk(g) && g.committeeId + 1 < U256_LIMIT
    requires Seated(g, g.committeeId + 1, members, threshold).Ok?
    ensures var g' := Seated(g, g.committeeId + 1, members, threshold).value; RegistryOk(g') && Extends(g, g')
  {
    var id := g.committeeId + 1;
    var g' := Seated(g, id, members, threshold).value;
    SeatMembers(id, members);
    forall c: U256, a: Address ensures IsInCommittee(g', c, a) <==> c < |g'.rosters| && a in g'.rosters[c] {
      assert IsInCommittee(g', c, a) <==> IsInCommittee(g, c, a) || MemberId(c, a) in Seats(id, members);
    }
  }

  lemma RotationEffect(s: State, caller: Address, c: Call)
    requires c.SetCommittee? && Next(s, caller, c).reg != s.reg
    ensures s.reg.committeeId + 1 < U256_LIMIT
    ensures Seated(s.reg, s.reg.committeeId + 1, c.members, c.threshold) == Ok(Next(s, caller, c).reg)
  {
  }

  lemma RegistryKept(s: State, caller: Address, c: Call)
    requires RegistryOk(s.reg)
    ensures RegistryOk(Next(s, caller, c).reg) && Extends(s.reg, Next(s, caller, c).reg)
  {
    Frame(s, caller, c);
    if c.SetCommittee? && Next(s, caller, c).reg != s.reg {
      RotationEffect(s, caller, c);
      SeatedKeeps(s.reg, c.members, c.threshold);
    }
  }

  /** A counted vote, with the release logged if the hash is through. */
  ghost predicate Counted(v: Ballots, v': Ballots, a: Address, x: Release, threshold: nat) {
    && Tally.Counted(PollOf(v), PollOf(v'), x.digest, a, threshold)
    && v'.releases == if x.digest in v'.processed then v.releases + [x] else v.releases
  }

  lemma ReceiveEffect(s: State, caller: Address, c: Call) returns (x: Release)
    requires c.Receive? && Next(s, caller, c).votes != s.votes
    ensures x.digest == c.digest == EthDigest(c.request) && x.request == c.request
    ensures IsInCommittee(s.reg, c.request.committee, caller) && !s.paused
    ensures Counted(s.votes, Next(s, caller, c).votes, caller, x, Get(s.reg.thresholds, c.request.committee, 0))
  {
    var delivered := Released(s.vault, c).Ok? && Released(s.vault, c).value.1;
    x := Release(c.digest, c.request, delivered);
  }

  lemma CountedKeepsQuorums(g: Registry, v: Ballots, v': Ballots, a: Address, x: Release, threshold: U256)
    requires CountsOk(PollOf(v)) && QuorumsOk(g, v) && Counted(v, v', a, x, threshold)
    requires OwnThreshold(g, x.digest) == Some(threshold)
    ensures QuorumsOk(g, v')
  {
    SignersAfterVote(v.signatures, x.digest, a);
    assert Get(v.pending, x.digest, 0) == |Voters(v, x.digest)| < threshold;
    forall h | h in v'.processed ensures OwnThreshold(g, h) == Some(|Voters(v', h)|) {
      if h != x.digest {
        assert h in v.processed && Voters(v', h) == Voters(v, h);
      }
    }
    forall h | h !in v'.processed && OwnThreshold(g, h).Some?
      ensures |Voters(v', h)| < OwnThreshold(g, h).value
    {
      if h != x.digest {
        assert h !in v.processed && Voters(v', h) == Voters(v, h);
      }
    }
  }

  lemma CountedKeepsReleases(v: Ballots, v': Ballots, a: Address, x: Release, threshold: nat)
    requires ReleasesOk(v) && Counted(v, v', a, x, threshold) && x.digest == EthDigest(x.request)
    ensures ReleasesOk(v')
  {
    forall h | h in v'.processed ensures exists i :: ReleasedAt(v', h, i) {
      if h in v.processed {
        var i :| ReleasedAt(v, h, i);
        assert ReleasedAt(v', h, i);
      } else {
        assert ReleasedAt(v', h, |v.releases|);
      }
    }
  }

  lemma VoteKeeps(s: State, caller: Address, c: Call)
    requires WellFormed(s) && c.Receive?
    ensures var v' := Next(s, caller, c).votes;
            CountsOk(PollOf(v')) && SignersOk(s.reg, v') && QuorumsOk(s.reg, v') && ReleasesOk(v')
  {
    var (g, v') := (s.reg, Next(s, caller, c).votes);
    if v' != s.votes {
      var x := ReceiveEffect(s, caller, c);
      EthRoundTrip(c.request);
      var threshold := Get(g.thresholds, c.request.committee, 0);
      CountedKeepsCounts(PollOf(s.votes), PollOf(v'), x.digest, caller, threshold);
      CountedKeepsQuorums(g, s.votes, v', caller, x, threshold);
      CountedKeepsReleases(s.votes, v', caller, x, threshold);
    }
  }

  lemma QuorumsInExtension(g: Registry, g': Registry, v: Ballots)
    requires SignersOk(g, v) && QuorumsOk(g, v) && RegistryOk(g') && Extends(g, g')
    ensures SignersOk(g', v) && QuorumsOk(g', v)
  {
    forall h | h !in v.processed && OwnThreshold(g', h).Some?
      ensures |Voters(v, h)| < OwnThreshold(g', h).value
    {
      if OwnThreshold(g, h).None? {
        assert forall a :: a in Voters(v, h) ==> ValidVote(g, h, a);
        assert Voters(v, h) == {};
      }
    }
  }

  lemma NoncesKept(s: State, caller: Address, c: Call)
    requires NoncesOk(s.vault)
    ensures NoncesOk(Next(s, caller, c).vault)
  {
    if (c.Send? && ApplySend(s, c).Ok?) || (c.SendNative? && ApplySendNative(s, c).Ok?) {
      assert |Next(s, caller, c).vault.sent| == |s.vault.sent| + 1;
    } else {
      assert Next(s, caller, c).vault.sent == s.vault.sent;
    }
  }

  lemma StepKeepsWellFormed(s: State, caller: Address, c: Call)
    requires WellFormed(s)
    ensures WellFormed(Next(s, caller, c)) && Extends(s.reg, Next(s, caller, c).reg)
  {
    Frame(s, caller, c);
    RegistryKept(s, caller, c);
    NoncesKept(s, caller, c);
    if c.Receive? {
      VoteKeeps(s, caller, c);
    } else {
      QuorumsInExtension(s.reg, Next(s, caller, c).reg, s.votes);
    }
  }

  lemma {:induction false} RunKeepsWellFormed(s: State, calls: seq<(Address, Call)>)
    requires WellFormed(s)
    ensures WellFormed(Run(s, calls)) && Extends(s.reg, Run(s, calls).reg)
    decreases |calls|
  {
    if calls != [] {
      StepKeepsWellFormed(s, calls[0].0, calls[0].1);
      RunKeepsWellFormed(Next(s, calls[0].0, calls[0].1), calls[1..]);
    }
  }

  lemma FirstCommittee(members: seq<Address>, threshold: U256)
    requires Seated(Registry(0, {}, map[], map[], []), 0, members, threshold).Ok?
    ensures RegistryOk(Seated(Registry(0, {}, map[], map[], []), 0, members, threshold).value)
  {
    SeatMembers(0, members);
    var g := Seated(Registry(0, {}, map[], map[], []), 0, members, threshold).value;
    assert g.rosters == [members] && g.sizes == map[0 := |members|] && g.thresholds == map[0 := threshold];
    forall c: U256, a: Address ensures IsInCommittee(g, c, a) <==> c < |g.rosters| && a in g.rosters[c] {
      assert IsInCommittee(g, c, a) <==> MemberId(c, a) in Seats(0, members);
    }
  }

  lemma DeployedWellFormed(s: State)
    requires Deployed(s)
    ensures WellFormed(s) && s.votes == Ballots(map[], {}, {}, [])
    ensures s.vault == EmptyVault(s.vault.weth, s.vault.escrow)
  {
    var members, threshold, owner, weth, escrow :| Init(members, threshold, owner, weth, escrow) == Ok(s);
    FirstCommittee(members, threshold);
    assert forall h :: Voters(s.votes, h) == {};
  }

  // ----- main results over whole runs

  ghost predicate MembersAre(g: Registry, c: U256, members: set<Address>) {
    forall a: Address :: IsInCommittee(g, c, a) <==> a in members
  }

  /** Exact quorums across rotations: a processed hash was signed by exactly as many accounts as the
      threshold of its own committee, all of them members of that committee, and released once; an
      unprocessed hash has fewer; and 1 <= threshold <= size = number of members for every committee. */
  lemma ExactQuorum(s0: State, calls: seq<(Address, Call)>, h: Digest, c: U256)
    requires Deployed(s0)
    ensures var (g, v) := (Run(s0, calls).reg, Run(s0, calls).votes);
            && (h in v.processed ==> OwnThreshold(g, h) == Some(|Voters(v, h)|))
            && (h !in v.processed && OwnThreshold(g, h).Some? ==> |Voters(v, h)| < OwnThreshold(g, h).value)
            && (forall a :: a in Voters(v, h) ==>
                  EthRequestOf(h).Some? && IsInCommittee(g, EthRequestOf(h).value.committee, a))
            && (h in v.processed <==> exists i :: ReleasedAt(v, h, i))
            && (forall i, j :: ReleasedAt(v, h, i) && ReleasedAt(v, h, j) ==> i == j)
            && (c <= g.committeeId ==>
                  c in g.thresholds && c in g.sizes && 1 <= g.thresholds[c] <= g.sizes[c]
                  && exists members :: MembersAre(g, c, members) && |members| == g.sizes[c])
  {
    DeployedWellFormed(s0);
    RunKeepsWellFormed(s0, calls);
    var (g, v) := (Run(s0, calls).reg, Run(s0, calls).votes);
    forall a | a in Voters(v, h)
      ensures EthRequestOf(h).Some? && IsInCommittee(g, EthRequestOf(h).value.committee, a)
    {
      assert ValidVote(g, h, a);
    }
    if c <= g.committeeId {
      DistinctCardinality(g.rosters[c]);
      var members := Elements(g.rosters[c]);
      assert MembersAre(g, c, members) && |members| == g.sizes[c];
    }
  }

  /** Committees, thresholds and sizes never change once set. */
  lemma PastCommitteesImmutable(s: State, calls: seq<(Address, Call)>, c: U256)
    requires WellFormed(s) && c in s.reg.thresholds
    ensures var (g, g') := (s.reg, Run(s, calls).reg);
            && c in g'.thresholds && g'.thresholds[c] == g.thresholds[c]
            && c in g.sizes && c in g'.sizes && g'.sizes[c] == g.sizes[c]
            && forall a: Address :: IsInCommittee(g', c, a) <==> IsInCommittee(g, c, a)
  {
    RunKeepsWellFormed(s, calls);
  }

  // ----- vote order

  ghost function VotersIn(calls: seq<(Address, Call)>, h: Digest): set<Address> {
    set i | 0 <= i < |calls| && calls[i].1.Receive? && calls[i].1.digest == h :: calls[i].0
  }

  /** Votes only, each with the digest of its own request, and none of them reverts. */
  ghost predicate SmoothVotes(s: State, calls: seq<(Address, Call)>)
    decreases |calls|
  {
    calls != [] ==>
      && calls[0].1.Receive? && calls[0].1.digest == EthDigest(calls[0].1.request)
      && Apply(s, calls[0].0, calls[0].1).Ok?
      && SmoothVotes(Next(s, calls[0].0, calls[0].1), calls[1..])
  }

  lemma VotersInCons(calls: seq<(Address, Call)>, h: Digest)
    requires calls != []
    ensures var first := if calls[0].1.Receive? && calls[0].1.digest == h then {calls[0].0} else {};
            VotersIn(calls, h) == first + VotersIn(calls[1..], h)
  {
    forall i | 1 <= i < |calls| ensures calls[i] == calls[1..][i - 1] {
    }
    var first := if calls[0].1.Receive? && calls[0].1.digest == h then {calls[0].0} else {};
    forall a | a in VotersIn(calls, h) ensures a in first + VotersIn(calls[1..], h) {
      var i :| 0 <= i < |calls| && calls[i].1.Receive? && calls[i].1.digest == h && calls[i].0 == a;
      if i > 0 {
        assert calls[1..][i - 1].0 == a;
      }
    }
    forall a | a in VotersIn(calls[1..], h) ensures a in VotersIn(calls, h) {
      var i :| 0 <= i < |calls[1..]| && calls[1..][i].1.Receive? && calls[1..][i].1.digest == h && calls[1..][i].0 == a;
      assert calls[i + 1].0 == a;
    }
  }

  lemma VoteCounts(s: State, caller: Address, c: Call, h: Digest)
    requires c.Receive? && c.digest == EthDigest(c.request) && Apply(s, caller, c).Ok?
    ensures var (v, v') := (s.votes, Next(s, caller, c).votes);
            && v.processed <= v'.processed
            && (c.digest == h && h !in v.processed ==> Voters(v', h) == Voters(v, h) + {caller})
            && (c.digest != h || h in v.processed ==> Voters(v', h) == Voters(v, h))
  {
    var (v, v') := (s.votes, Next(s, caller, c).votes);
    if v' != v {
      var x := ReceiveEffect(s, caller, c);
      SignersAfterVote(v.signatures, c.digest, caller);
    } else if c.digest == h && h !in v.processed {
      assert (h, caller) in v.signatures;
    }
  }

  /** A hash that is still open has collected exactly the voters it started with and those in the run;
      one that is closed has collected some of them. */
  lemma {:induction false} VotesAddUp(s: State, calls: seq<(Address, Call)>, h: Digest)
    requires SmoothVotes(s, calls)
    ensures var (v, v') := (s.votes, Run(s, calls).votes);
            && v.processed <= v'.processed && Voters(v', h) <= Voters(v, h) + VotersIn(calls, h)
            && (h !in v'.processed ==> Voters(v', h) == Voters(v, h) + VotersIn(calls, h))
    decreases |calls|
  {
    if calls == [] {
      assert VotersIn(calls, h) == {};
    } else {
      var (caller, c) := calls[0];
      VoteCounts(s, caller, c, h);
      VotesAddUp(Next(s, caller, c), calls[1..], h);
      VotersInCons(calls, h);
    }
  }

  /** Order and repetition of votes do not matter: a hash ends up processed if and only if it already
      was or the distinct members who voted for it reach its own threshold, and it is then released
      exactly once. */
  lemma SmoothVotesDecide(s: State, calls: seq<(Address, Call)>, h: Digest)
    requires WellFormed(s) && SmoothVotes(s, calls) && OwnThreshold(s.reg, h).Some?
    ensures var v' := Run(s, calls).votes;
            && (h in v'.processed <==>
                  h in s.votes.processed || |Voters(s.votes, h) + VotersIn(calls, h)| >= OwnThreshold(s.reg, h).value)
            && (h in v'.processed <==> exists i :: ReleasedAt(v', h, i))
            && (forall i, j :: ReleasedAt(v', h, i) && ReleasedAt(v', h, j) ==> i == j)
  {
    RunKeepsWellFormed(s, calls);
    VotesAddUp(s, calls, h);
    var (g', v') := (Run(s, calls).reg, Run(s, calls).votes);
    assert OwnThreshold(g', h) == OwnThreshold(s.reg, h);
    SubsetCardinality(Voters(v', h), Voters(s.votes, h) + VotersIn(calls, h));
  }

  // ----- votes that are known to go through

  ghost function Digests(calls: seq<(Address, Call)>): set<Digest> {
    set i | 0 <= i < |calls| && calls[i].1.Receive? :: calls[i].1.digest
  }

  /** Wrapped ether that a request takes out when it is released. */
  function WrappedAmount(weth: Address, h: Digest): nat {
    if EthRequestOf(h).Some? && ToAddress(EthRequestOf(h).value.token) == weth then EthRequestOf(h).value.amount else 0
  }

  /** What the different open requests among these votes ask for in wrapped ether. */
  ghost function Bill(weth: Address, processed: set<Digest>, calls: seq<(Address, Call)>): map<Digest, nat> {
    map h | h in Digests(calls) && h !in processed :: WrappedAmount(weth, h)
  }

  /** Votes of members for the digests of their requests on a contract that is not paused, where
      unwrapping works and the wrapped ether held covers every different request voted for. */
  ghost predicate ProperVotes(s: State, calls: seq<(Address, Call)>) {
    && !s.paused
    && (forall i :: 0 <= i < |calls| ==> ProperVote(s.reg, calls[i].0, calls[i].1))
    && SumMap(Bill(s.vault.weth, s.votes.processed, calls)) <= Held(s.vault, s.vault.weth)
  }

  ghost predicate ProperVote(g: Registry, caller: Address, c: Call) {
    c.Receive? && c.digest == EthDigest(c.request) && c.unwrapOk && IsInCommittee(g, c.request.committee, caller)
  }

  lemma CounterHasRoom(s: State, caller: Address, c: Call)
    requires WellFormed(s) && ProperVote(s.reg, caller, c) && c.digest !in s.votes.processed
    ensures Get(s.votes.pending, c.digest, 0) < Get(s.reg.thresholds, c.request.committee, 0)
  {
    EthRoundTrip(c.request);
    assert OwnThreshold(s.reg, c.digest).Some?;
  }

  /** Such a vote goes through, and takes out of the vault at most its own request. */
  lemma ProperVoteGoesThrough(s: State, caller: Address, c: Call)
    requires !s.paused && ProperVote(s.reg, caller, c)
    requires c.digest !in s.votes.processed ==>
               && Get(s.votes.pending, c.digest, 0) < Get(s.reg.thresholds, c.request.committee, 0)
               && WrappedAmount(s.vault.weth, c.digest) <= Held(s.vault, s.vault.weth)
    ensures Apply(s, caller, c).Ok?
    ensures var s' := Next(s, caller, c);
            && s'.paused == s.paused && s'.reg == s.reg && s'.vault.weth == s.vault.weth
            && ((s'.votes.processed == s.votes.processed && s'.vault == s.vault)
                || (s'.votes.processed == s.votes.processed + {c.digest} && c.digest !in s.votes.processed
                    && Held(s'.vault, s.vault.weth)
                       == Held(s.vault, s.vault.weth) - WrappedAmount(s.vault.weth, c.digest)))
  {
    EthRoundTrip(c.request);
  }

  lemma DigestsCons(calls: seq<(Address, Call)>)
    requires calls != [] && calls[0].1.Receive?
    ensures Digests(calls) == Digests(calls[1..]) + {calls[0].1.digest}
  {
    forall h | h in Digests(calls) ensures h in Digests(calls[1..]) + {calls[0].1.digest} {
      var i :| 0 <= i < |calls| && calls[i].1.Receive? && calls[i].1.digest == h;
      if i > 0 {
        assert calls[1..][i - 1] == calls[i];
      }
    }
    forall h | h in Digests(calls[1..]) ensures h in Digests(calls) {
      var i :| 0 <= i < |calls[1..]| && calls[1..][i].1.Receive? && calls[1..][i].1.digest == h;
      assert calls[i + 1] == calls[1..][i];
    }
  }

  /** The first vote's request leaves the bill when it is through; otherwise it may stay. */
  lemma BillShrinks(weth: Address, processed: set<Digest>, calls: seq<(Address, Call)>)
    requires calls != [] && calls[0].1.Receive? && calls[0].1.digest !in processed
    ensures var (bill, h) := (Bill(weth, processed, calls), calls[0].1.digest);
            && SumMap(Bill(weth, processed + {h}, calls[1..])) + WrappedAmount(weth, h) == SumMap(bill)
            && SumMap(Bill(weth, processed, calls[1..])) <= SumMap(bill)
  {
    var (bill, h) := (Bill(weth, processed, calls), calls[0].1.digest);
    DigestsCons(calls);
    SumMapSplit(bill, h);
    assert Bill(weth, processed + {h}, calls[1..]) == bill - {h};
    if h in Digests(calls[1..]) {
      assert Bill(weth, processed, calls[1..]) == bill;
    } else {
      assert Bill(weth, processed, calls[1..]) == bill - {h};
    }
  }

  lemma BillOfRest(weth: Address, processed: set<Digest>, calls: seq<(Address, Call)>)
    requires calls != [] && calls[0].1.Receive? && calls[0].1.digest in processed
    ensures Bill(weth, processed, calls[1..]) == Bill(weth, processed, calls)
  {
    DigestsCons(calls);
  }

  lemma ProperVotesStep(s: State, calls: seq<(Address, Call)>)
    requires WellFormed(s) && ProperVotes(s, calls) && calls != []
    ensures Apply(s, calls[0].0, calls[0].1).Ok? && ProperVotes(Next(s, calls[0].0, calls[0].1), calls[1..])
  {
    var (caller, c) := calls[0];
    var (weth, processed) := (s.vault.weth, s.votes.processed);
    assert ProperVote(s.reg, caller, c);
    if c.digest in processed {
      BillOfRest(weth, processed, calls);
    } else {
      BillShrinks(weth, processed, calls);
      CounterHasRoom(s, caller, c);
    }
    ProperVoteGoesThrough(s, caller, c);
    var s' := Next(s, caller, c);
    forall i | 0 <= i < |calls[1..]| ensures ProperVote(s'.reg, calls[1..][i].0, calls[1..][i].1) {
      assert calls[1..][i] == calls[i + 1];
    }
  }

  lemma {:induction false} ProperVotesAreSmooth(s: State, calls: seq<(Address, Call)>)
    requires WellFormed(s) && ProperVotes(s, calls)
    ensures SmoothVotes(s, calls)
    decreases |calls|
  {
    if calls != [] {
      assert ProperVote(s.reg, calls[0].0, calls[0].1);
      ProperVotesStep(s, calls);
      StepKeepsWellFormed(s, calls[0].0, calls[0].1);
      ProperVotesAreSmooth(Next(s, calls[0].0, calls[0].1), calls[1..]);
    }
  }

  /** Vote-order independence, from what is known before the first vote: proper votes in any order and
      with any repetitions all go through, a hash ends up processed if and only if it already was or
      its distinct voters reach its own threshold, and it is then released exactly once. */
  lemma VoteOrderIndependent(s: State, calls: seq<(Address, Call)>, h: Digest)
    requires WellFormed(s) && ProperVotes(s, calls) && OwnThreshold(s.reg, h).Some?
    ensures SmoothVotes(s, calls)
    ensures var v' := Run(s, calls).votes;
            && (h in v'.processed <==>
                  h in s.votes.processed || |Voters(s.votes, h) + VotersIn(calls, h)| >= OwnThreshold(s.reg, h).value)
            && (h in v'.processed <==> exists i :: ReleasedAt(v', h, i))
            && (forall i, j :: ReleasedAt(v', h, i) && ReleasedAt(v', h, j) ==> i == j)
  {
    ProperVotesAreSmooth(s, calls);
    SmoothVotesDecide(s, calls, h);
  }

  // ----- delivering a vote again

  /** The contract knows this vote: it was counted, or the request is already through. */
  ghost predicate Recorded(s: State, caller: Address, r: Request) {
    EthDigest(r) in s.votes.processed || (EthDigest(r), caller) in s.votes.signatures
  }

  lemma VoteIsRecorded(s: State, caller: Address, c: Call)
    requires c.Receive? && c.digest == EthDigest(c.request) && Apply(s, caller, c).Ok?
    ensures Recorded(Next(s, caller, c), caller, c.request)
  {
  }

  lemma RecordedStays(s: State, caller: Address, r: Request, other: Address, c: Call)
    requires Recorded(s, caller, r)
    ensures Recorded(Next(s, other, c), caller, r)
  {
    Frame(s, other, c);
  }

  lemma RecordedVoteChangesNothing(s: State, caller: Address, c: Call)
    requires c.Receive? && c.digest == EthDigest(c.request) && Recorded(s, caller, c.request)
    ensures Next(s, caller, c) == s
  {
  }

  /** The vote a call carries: one for the digest of its own request. */
  function VoteOf(k: (Address, Call)): Option<(Address, Request)> {
    if k.1.Receive? && k.1.digest == EthDigest(k.1.request) then Some((k.0, k.1.request)) else None
  }

  /** This contract as far as votes go. */
  ghost function AsVoting(): Redelivery.Contract<State, (Address, Call), (Address, Request)> {
    Redelivery.Contract(
      (s: State, k: (Address, Call)) => Next(s, k.0, k.1),
      (k: (Address, Call)) => VoteOf(k),
      (s: State, k: (Address, Call)) => Apply(s, k.0, k.1).Ok?,
      (s: State, v: (Address, Request)) => Recorded(s, v.0, v.1))
  }

  lemma CountsVotesOnce()
    ensures Redelivery.CountsOnce(AsVoting())
  {
    var c := AsVoting();
    forall s: State, k: (Address, Call) | VoteOf(k).Some? && Apply(s, k.0, k.1).Ok?
      ensures Recorded(Next(s, k.0, k.1), k.0, k.1.request)
    {
      VoteIsRecorded(s, k.0, k.1);
    }
    forall s: State, k: (Address, Call), v: (Address, Request) | Recorded(s, v.0, v.1)
      ensures Recorded(Next(s, k.0, k.1), v.0, v.1)
    {
      RecordedStays(s, v.0, v.1, k.0, k.1);
    }
    forall s: State, k: (Address, Call) | VoteOf(k).Some? && Recorded(s, k.0, k.1.request)
      ensures Next(s, k.0, k.1) == s
    {
      RecordedVoteChangesNothing(s, k.0, k.1);
    }
  }

  lemma {:induction false} RunAsVoting(s: State, calls: seq<(Address, Call)>)
    ensures Redelivery.Run(AsVoting(), s, calls) == Run(s, calls)
    decreases |calls|
  {
    if calls != [] {
      RunAsVoting(Next(s, calls[0].0, calls[0].1), calls[1..]);
    }
  }

  /** The run with every vote dropped that repeats one already delivered successfully. */
  ghost function WithoutRedeliveries(s: State, delivered: set<(Address, Request)>, calls: seq<(Address, Call)>)
    : seq<(Address, Call)>
  {
    Redelivery.Without(AsVoting(), s, delivered, calls)
  }

  /** Nothing is left to drop. */
  lemma NoRedeliveriesLeft(s: State, delivered: set<(Address, Request)>, calls: seq<(Address, Call)>)
    ensures var kept := WithoutRedeliveries(s, delivered, calls); WithoutRedeliveries(s, delivered, kept) == kept
  {
    Redelivery.NothingLeft(AsVoting(), s, delivered, calls);
  }

  /** Exactly-once effect: re-delivered votes, interleaved with anything else, leave the same state,
      hence the same processed set and the same releases, as if they had been sent once. */
  lemma RedeliveryIsInvisible(s: State, delivered: set<(Address, Request)>, calls: seq<(Address, Call)>)
    requires forall d :: d in delivered ==> Recorded(s, d.0, d.1)
    ensures Run(s, WithoutRedeliveries(s, delivered, calls)) == Run(s, calls)
  {
    CountsVotesOnce();
    Redelivery.Invisible(AsVoting(), s, delivered, calls);
    RunAsVoting(s, calls);
    RunAsVoting(s, WithoutRedeliveries(s, delivered, calls));
  }
}
