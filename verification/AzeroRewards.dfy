/** The native money of the ink! contract: committee rewards, pocket money and the balance behind them. */
module AzeroRewards {
  import opened Prelude
  import opened Bytes
  import opened Requests
  import opened AzeroSpec
  import opened AzeroVotes

  function Share(g: Registry, f: Funds): nat {
    if 0 in g.sizes && g.sizes[0] > 0 then Get(f.collected, 0, 0) / g.sizes[0] else 0
  }

  /** Only members of the first committee are ever paid, and never more than an equal share. */
  ghost predicate RewardsOk(g: Registry, f: Funds) {
    forall k :: k in f.paid ==> k.1 == 0 && (k.1, k.0) in g.committees && f.paid[k] <= Share(g, f)
  }

  ghost function PaidIn(paid: map<(Account, CommitteeId), U128>, c: CommitteeId): map<Account, U128> {
    map k | k in paid && k.1 == c :: k.0 := paid[k]
  }

  /** A payout brings the member up to exactly the floor of an equal share. */
  lemma PayoutEffect(s: State, c: Call)
    requires RegistryOk(s.reg) && RewardsOk(s.reg, s.funds) && c.Payout? && ApplyPayout(s, c).Ok?
    ensures c.committee == 0 && (c.committee, c.member) in s.reg.committees
    ensures var (f, f') := (s.funds, ApplyPayout(s, c).value.funds);
            && Get(f'.paid, (c.member, c.committee), 0) == Share(s.reg, f)
            && f'.collected == f.collected
            && (f' == f || (f'.paid == f.paid[(c.member, c.committee) := Share(s.reg, f)]
                            && f'.balance + Share(s.reg, f) == f.balance + Get(f.paid, (c.member, c.committee), 0)
                            && f' == f.(paid := f'.paid, balance := f'.balance)))
  {
    assert c.committee in s.reg.sizes;
  }

  lemma FeesOnlyGrow(s: State, caller: Account, c: Call)
    ensures Get(s.funds.collected, 0, 0) <= Get(Next(s, caller, c).funds.collected, 0, 0)
    ensures !c.Payout? ==> Next(s, caller, c).funds.paid == s.funds.paid
  {
    Frame(s, caller, c);
  }

  lemma RewardsKept(s: State, caller: Account, c: Call)
    requires RegistryOk(s.reg) && RewardsOk(s.reg, s.funds)
    requires c.SetCommittee? ==> s.reg.committeeId + 1 < U128_LIMIT
    ensures RewardsOk(Next(s, caller, c).reg, Next(s, caller, c).funds)
  {
    var s' := Next(s, caller, c);
    Frame(s, caller, c);
    if c.Payout? {
      if ApplyPayout(s, c).Ok? {
        PayoutEffect(s, c);
      }
    } else {
      RegistryKept(s, caller, c);
      FeesOnlyGrow(s, caller, c);
      ShareGrows(s.reg, s.funds, s'.reg, s'.funds);
    }
  }

  lemma ShareGrows(g: Registry, f: Funds, g': Registry, f': Funds)
    requires RegistryOk(g) && RegistryOk(g') && Extends(g, g')
    requires Get(f.collected, 0, 0) <= Get(f'.collected, 0, 0)
    ensures Share(g, f) <= Share(g', f')
  {
    if g.sizes[0] > 0 {
      DivMonotone(Get(f.collected, 0, 0), Get(f'.collected, 0, 0), g.sizes[0]);
    }
  }

  lemma {:induction false} RunKeepsRewards(s: State, calls: seq<(Account, Call)>)
    requires WellFormed(s) && RewardsOk(s.reg, s.funds) && s.reg.committeeId + |calls| < U128_LIMIT
    ensures RewardsOk(Run(s, calls).reg, Run(s, calls).funds)
    decreases |calls|
  {
    if calls != [] {
      StepKeepsWellFormed(s, calls[0].0, calls[0].1);
      RewardsKept(s, calls[0].0, calls[0].1);
      RunKeepsRewards(Next(s, calls[0].0, calls[0].1), calls[1..]);
    }
  }

  lemma ReachableRewards(s0: State, calls: seq<(Account, Call)>)
    requires Deployed(s0) && |calls| < U128_LIMIT
    ensures WellFormed(Run(s0, calls)) && RewardsOk(Run(s0, calls).reg, Run(s0, calls).funds)
  {
    DeployedWellFormed(s0);
    RunKeepsWellFormed(s0, calls);
    RunKeepsRewards(s0, calls);
  }

  lemma FirstCommittee(g: Registry)
    requires RegistryOk(g)
    ensures |Members(g, 0)| == g.sizes[0]
  {
    var roster := g.rosters[0];
    forall a ensures a in Members(g, 0) <==> a in Elements(roster) {
      assert (0, a) in g.committees <==> a in roster;
    }
    assert Members(g, 0) == Elements(roster);
    DistinctCardinality(roster);
  }

  lemma PaidMembers(g: Registry, f: Funds)
    requires RewardsOk(g, f)
    ensures PaidIn(f.paid, 0).Keys <= Members(g, 0)
    ensures forall m :: m in PaidIn(f.paid, 0) ==> PaidIn(f.paid, 0)[m] <= Share(g, f)
  {
    var paid := PaidIn(f.paid, 0);
    forall m | m in paid ensures m in Members(g, 0) && paid[m] <= Share(g, f) {
      assert (m, 0) in f.paid && (0, m) in g.committees;
    }
  }

  lemma LaterUnpaid(g: Registry, f: Funds, c: CommitteeId)
    requires RewardsOk(g, f) && c != 0
    ensures PaidIn(f.paid, c) == map[]
  {
    assert forall m :: (m, c) !in f.paid;
  }

  /** n * floor(c / n) <= c, summed over at most n payees. */
  lemma SharesFit(paid: map<Account, U128>, members: set<Account>, size: nat, collected: nat)
    requires paid.Keys <= members && |members| == size
    requires forall m :: m in paid ==> paid[m] <= (if size > 0 then collected / size else 0)
    ensures SumMap(paid) <= collected
  {
    SubsetCardinality(paid.Keys, members);
    var share := if size > 0 then collected / size else 0;
    SumMapBound(paid, share);
    assert |paid| == |paid.Keys|;
    MulMonotone(|paid|, size, share);
    assert size * share <= collected;
  }

  /** The rewards paid to all members of a committee never exceed what the committee collected. */
  lemma RewardsNeverOverpaid(s0: State, calls: seq<(Account, Call)>, c: CommitteeId)
    requires Deployed(s0) && |calls| < U128_LIMIT
    ensures var f := Run(s0, calls).funds; SumMap(PaidIn(f.paid, c)) <= Get(f.collected, c, 0)
  {
    ReachableRewards(s0, calls);
    var (g, f) := (Run(s0, calls).reg, Run(s0, calls).funds);
    PaidMembers(g, f);
    if c == 0 {
      FirstCommittee(g);
      SharesFit(PaidIn(f.paid, 0), Members(g, 0), g.sizes[0], Get(f.collected, 0, 0));
    } else {
      LaterUnpaid(g, f, c);
    }
  }

  lemma DustLeft(paid: map<Account, U128>, members: set<Account>, size: nat, collected: nat)
    requires paid.Keys <= members && |members| == size > 0
    requires forall m :: m in members ==> Get(paid, m, 0) == collected / size
    ensures collected < SumMap(paid) + size
  {
    var share := collected / size;
    if share > 0 {
      assert paid.Keys == members;
      SumMapConstant(paid, share);
      assert |paid| == |paid.Keys|;
    }
    assert collected < size * share + size;
  }

  lemma SettledMember(s: State, m: Account)
    requires RegistryOk(s.reg) && RewardsOk(s.reg, s.funds) && s.reg.sizes[0] > 0
    requires m in Members(s.reg, 0) && Outstanding(s, 0, m) == Ok(0)
    ensures Get(PaidIn(s.funds.paid, 0), m, 0) == Share(s.reg, s.funds)
  {
    assert Get(PaidIn(s.funds.paid, 0), m, 0) == Get(s.funds.paid, (m, 0), 0);
  }

  /** Once every member was paid at the current takings, less than one unit per member is left over. */
  lemma DustBelowCommitteeSize(s0: State, calls: seq<(Account, Call)>)
    requires Deployed(s0) && |calls| < U128_LIMIT
    requires var s := Run(s0, calls); 0 in s.reg.sizes && s.reg.sizes[0] > 0
    requires var s := Run(s0, calls);
             forall m :: m in Members(s.reg, 0) ==> Outstanding(s, 0, m) == Ok(0)
    ensures var s := Run(s0, calls);
            Get(s.funds.collected, 0, 0) < SumMap(PaidIn(s.funds.paid, 0)) + s.reg.sizes[0]
  {
    ReachableRewards(s0, calls);
    var s := Run(s0, calls);
    var paid := PaidIn(s.funds.paid, 0);
    PaidMembers(s.reg, s.funds);
    FirstCommittee(s.reg);
    forall m | m in Members(s.reg, 0) ensures Get(paid, m, 0) == Share(s.reg, s.funds) {
      SettledMember(s, m);
    }
    DustLeft(paid, Members(s.reg, 0), s.reg.sizes[0], Get(s.funds.collected, 0, 0));
  }

  /** `committee_sizes` is written for the first committee only: a payout for any other fails. */
  lemma LaterCommitteesAreNotPaid(s0: State, calls: seq<(Account, Call)>, caller: Account, c: Call)
    requires Deployed(s0) && |calls| < U128_LIMIT && c.Payout?
    requires (c.committee, c.member) in Run(s0, calls).reg.committees && !Run(s0, calls).halted
    ensures Apply(Run(s0, calls), caller, c) == Err(NoSuchCommittee) <==> c.committee != 0
  {
    ReachableRewards(s0, calls);
  }

  lemma SecondCommittee(s0: State, s2: State)
    requires Init([1], 1, 0, 9, 0, map[]) == Ok(s0)
    requires s2 == Next(Next(s0, 9, SetCommittee([7], 1)), 9, SetHalted(false))
    ensures !s2.halted && (1, 7) in s2.reg.committees && 1 in s2.reg.thresholds && s2.reg.sizes == map[0 := 1]
  {
    assert Distinct([7]) && (1, 7) in Roster(1, [7]) by { assert [7][0] == 7; }
  }

  /** A run from deployment after which the only guardian of the active committee cannot be paid. */
  lemma SecondCommitteeUnpaid(s0: State, caller: Account)
    requires Init([1], 1, 0, 9, 0, map[]) == Ok(s0)
    ensures var s := Run(s0, [(9, SetCommittee([7], 1)), (9, SetHalted(false))]);
            (1, 7) in s.reg.committees && Apply(s, caller, Payout(1, 7, true)) == Err(NoSuchCommittee)
  {
    var (a, b) := ((9, SetCommittee([7], 1)), (9, SetHalted(false)));
    RunSnoc(s0, [], a.0, a.1);
    RunSnoc(s0, [a], b.0, b.1);
    assert [] + [a] == [a] && [a] + [b] == [a, b];
    SecondCommittee(s0, Run(s0, [a, b]));
  }

  // ----- payout schedules

  ghost function WithoutPayouts(calls: seq<(Account, Call)>): seq<(Account, Call)> {
    if calls == [] then []
    else if calls[0].1.Payout? then WithoutPayouts(calls[1..])
    else [calls[0]] + WithoutPayouts(calls[1..])
  }

  /** States that differ at most in rewards taken and in money that moved. */
  ghost predicate SameBooks(s: State, t: State) {
    && s.halted == t.halted && s.owner == t.owner && s.reg == t.reg && s.votes == t.votes && s.tokens == t.tokens
    && s.funds.collected == t.funds.collected && s.funds.pocketMoney == t.funds.pocketMoney
    && s.funds.pocketPool == t.funds.pocketPool
  }

  lemma PayoutKeepsBooks(s: State, caller: Account, c: Call)
    requires c.Payout?
    ensures SameBooks(s, Next(s, caller, c))
  {
    Frame(s, caller, c);
  }

  lemma SendInStep(s: State, t: State, caller: Account, c: Call)
    requires SameBooks(s, t) && c.Send?
    ensures SameBooks(Next(s, caller, c), Next(t, caller, c))
  {
    assert ApplySend(s, c).Ok? <==> ApplySend(t, c).Ok?;
  }

  lemma ReceiveInStep(s: State, t: State, caller: Account, c: Call)
    requires SameBooks(s, t) && c.Receive?
    ensures SameBooks(Next(s, caller, c), Next(t, caller, c))
  {
    assert ApplyReceive(s, caller, c).Ok? <==> ApplyReceive(t, caller, c).Ok?;
  }

  lemma RotationInStep(s: State, t: State, caller: Account, c: Call)
    requires SameBooks(s, t) && c.SetCommittee?
    ensures SameBooks(Next(s, caller, c), Next(t, caller, c))
  {
  }

  lemma TokensInStep(s: State, t: State, caller: Account, c: Call)
    requires SameBooks(s, t) && (c.AddPair? || c.RemovePair? || c.HolderBurn?)
    ensures SameBooks(Next(s, caller, c), Next(t, caller, c))
  {
  }

  lemma BooksInStep(s: State, t: State, caller: Account, c: Call)
    requires SameBooks(s, t) && !c.Payout?
    ensures SameBooks(Next(s, caller, c), Next(t, caller, c))
  {
    match c
    case Send(_, _, _, _, _, _, _) => SendInStep(s, t, caller, c);
    case Receive(_, _, _, _) => ReceiveInStep(s, t, caller, c);
    case SetCommittee(_, _) => RotationInStep(s, t, caller, c);
    case SetHalted(_) =>
    case Fund(_) =>
    case RecoverAzero(_, _) =>
    case Donate(_) =>
    case _ => TokensInStep(s, t, caller, c);
  }

  lemma {:induction false} PayoutsDoNotMatter(s: State, t: State, calls: seq<(Account, Call)>)
    requires SameBooks(s, t)
    ensures SameBooks(Run(s, calls), Run(t, WithoutPayouts(calls)))
    decreases |calls|
  {
    if calls != [] {
      var (caller, c) := calls[0];
      if c.Payout? {
        PayoutKeepsBooks(s, caller, c);
        PayoutsDoNotMatter(Next(s, caller, c), t, calls[1..]);
      } else {
        BooksInStep(s, t, caller, c);
        PayoutsDoNotMatter(Next(s, caller, c), Next(t, caller, c), calls[1..]);
        assert WithoutPayouts(calls)[1..] == WithoutPayouts(calls[1..]);
      }
    }
  }

  lemma WithoutPayoutsShorter(calls: seq<(Account, Call)>)
    ensures |WithoutPayouts(calls)| <= |calls|
  {
  }

  // ----- the balance behind the books

  ghost predicate LedgerOk(f: Funds, initial: nat) {
    f.balance + f.pocketPaid + f.recovered + SumMap(f.paid)
      == initial + f.donated + f.pocketPool + SumMap(f.collected)
  }

  lemma SendKeepsLedger(s: State, c: Call, initial: nat)
    requires LedgerOk(s.funds, initial) && c.Send? && ApplySend(s, c).Ok?
    ensures LedgerOk(ApplySend(s, c).value.funds, initial)
  {
    var (f, id) := (s.funds, s.reg.committeeId);
    SumMapUpdate(f.collected, id, Get(f.collected, id, 0) + c.fee.value);
  }

  lemma PayoutKeepsLedger(s: State, c: Call, initial: nat)
    requires LedgerOk(s.funds, initial) && RegistryOk(s.reg) && RewardsOk(s.reg, s.funds)
    requires c.Payout? && ApplyPayout(s, c).Ok?
    ensures LedgerOk(ApplyPayout(s, c).value.funds, initial)
  {
    PayoutEffect(s, c);
    SumMapUpdate(s.funds.paid, (c.member, c.committee), Share(s.reg, s.funds));
  }

  /** Every other call moves balance, pocket money, recoveries and donations in step. */
  lemma UnbookedMoves(s: State, caller: Account, c: Call)
    requires !c.Send? && !c.Payout?
    ensures var (f, f') := (s.funds, Next(s, caller, c).funds);
            && f'.paid == f.paid && f'.collected == f.collected
            && f'.balance + f'.pocketPaid + f'.recovered + f.donated + f.pocketPool
                 == f.balance + f.pocketPaid + f.recovered + f'.donated + f'.pocketPool
  {
    Frame(s, caller, c);
  }

  lemma LedgerKept(s: State, caller: Account, c: Call, initial: nat)
    requires LedgerOk(s.funds, initial) && RegistryOk(s.reg) && RewardsOk(s.reg, s.funds)
    ensures LedgerOk(Next(s, caller, c).funds, initial)
  {
    if c.Send? {
      if ApplySend(s, c).Ok? {
        SendKeepsLedger(s, c, initial);
      }
    } else if c.Payout? {
      if ApplyPayout(s, c).Ok? {
        PayoutKeepsLedger(s, c, initial);
      }
    } else {
      UnbookedMoves(s, caller, c);
    }
  }

  lemma {:induction false} RunKeepsLedger(s: State, calls: seq<(Account, Call)>, initial: nat)
    requires WellFormed(s) && RewardsOk(s.reg, s.funds) && LedgerOk(s.funds, initial)
    requires s.reg.committeeId + |calls| < U128_LIMIT
    ensures LedgerOk(Run(s, calls).funds, initial)
    decreases |calls|
  {
    if calls != [] {
      StepKeepsWellFormed(s, calls[0].0, calls[0].1);
      RewardsKept(s, calls[0].0, calls[0].1);
      LedgerKept(s, calls[0].0, calls[0].1, initial);
      RunKeepsLedger(Next(s, calls[0].0, calls[0].1), calls[1..], initial);
    }
  }

  /** Native-balance identity, and what it means for rewards: the rewards still owed are covered by
      the balance exactly when pocket money and recoveries took no more than the initial balance,
      donations and the money put into the pocket pool. */
  lemma NativeLedger(s0: State, calls: seq<(Account, Call)>)
    requires Deployed(s0) && |calls| < U128_LIMIT
    ensures var f := Run(s0, calls).funds;
            && f.balance + f.pocketPaid + f.recovered + SumMap(f.paid)
                 == s0.funds.balance + f.donated + f.pocketPool + SumMap(f.collected)
            && (f.balance + SumMap(f.paid) >= SumMap(f.collected) <==>
                  f.pocketPaid + f.recovered <= s0.funds.balance + f.donated + f.pocketPool)
  {
    DeployedWellFormed(s0);
    assert SumMap(s0.funds.paid) == 0 && SumMap(s0.funds.collected) == 0;
    RunKeepsLedger(s0, calls, s0.funds.balance);
  }

  /** The rewards collected and not yet paid out are there. */
  ghost predicate RewardsBacked(f: Funds) {
    SumMap(f.collected) <= f.balance + SumMap(f.paid)
  }

  /** Native money that a call takes out of the contract without booking it: pocket money with a mint,
      and what the owner recovers. */
  function Drain(s: State, caller: Account, c: Call): nat {
    match c
    case Receive(_, _, _, _) => if ReachesThreshold(s, caller, c) then PocketFor(s.funds, c) else 0
    case RecoverAzero(amount, transferOk) =>
      if caller == s.owner && transferOk && amount <= s.funds.balance then amount else 0
    case _ => 0
  }

  lemma DrainedBalance(s: State, caller: Account, c: Call)
    requires !c.Send? && !c.Payout?
    ensures var (f, f') := (s.funds, Next(s, caller, c).funds);
            && f'.paid == f.paid && f'.collected == f.collected
            && f'.balance >= f.balance - Drain(s, caller, c)
            && (c.Receive? || c.RecoverAzero? ==> f'.balance == f.balance - Drain(s, caller, c))
  {
    Frame(s, caller, c);
  }

  lemma BookedCallKeepsBacking(s: State, caller: Account, c: Call)
    requires RegistryOk(s.reg) && RewardsOk(s.reg, s.funds) && RewardsBacked(s.funds) && (c.Send? || c.Payout?)
    ensures RewardsBacked(Next(s, caller, c).funds)
  {
    var (f, id) := (s.funds, s.reg.committeeId);
    if c.Send? && ApplySend(s, c).Ok? {
      SumMapUpdate(f.collected, id, Get(f.collected, id, 0) + c.fee.value);
    } else if c.Payout? && ApplyPayout(s, c).Ok? {
      PayoutEffect(s, c);
      SumMapUpdate(f.paid, (c.member, c.committee), Share(s.reg, f));
    }
  }

  /** Exactly which calls break the backing of rewards: those that drain more than what the balance
      holds beyond the rewards owed. */
  lemma BackingKeptIff(s: State, caller: Account, c: Call)
    requires RegistryOk(s.reg) && RewardsOk(s.reg, s.funds) && RewardsBacked(s.funds)
    ensures RewardsBacked(Next(s, caller, c).funds)
            <==> Drain(s, caller, c) <= s.funds.balance + SumMap(s.funds.paid) - SumMap(s.funds.collected)
  {
    if c.Send? || c.Payout? {
      BookedCallKeepsBacking(s, caller, c);
    } else {
      DrainedBalance(s, caller, c);
    }
  }

  // ----- one payout at the end

  lemma {:induction false} NothingPaid(s: State, calls: seq<(Account, Call)>)
    ensures Run(s, WithoutPayouts(calls)).funds.paid == s.funds.paid
    decreases |calls|
  {
    if calls != [] {
      var (caller, c) := calls[0];
      if c.Payout? {
        NothingPaid(s, calls[1..]);
      } else {
        FeesOnlyGrow(s, caller, c);
        NothingPaid(Next(s, caller, c), calls[1..]);
        assert WithoutPayouts(calls)[1..] == WithoutPayouts(calls[1..]);
      }
    }
  }

  lemma ShareWithinTakings(collected: nat, size: nat)
    requires size > 0
    ensures collected / size <= collected
  {
    var share := collected / size;
    MulMonotone(1, size, share);
  }

  lemma FirstPayout(s: State, c: Call)
    requires 0 in s.reg.sizes && s.funds.paid == map[] && !s.halted
    requires c.Payout? && c.committee == 0 && (0, c.member) in s.reg.committees && s.reg.sizes[0] > 0
    ensures ApplyPayout(s, c).Ok?
            <==> Share(s.reg, s.funds) == 0 || (c.transferOk && Share(s.reg, s.funds) <= s.funds.balance)
  {
    ShareWithinTakings(Get(s.funds.collected, 0, 0), s.reg.sizes[0]);
  }

  lemma BackedShare(g: Registry, f: Funds)
    requires 0 in g.sizes && g.sizes[0] > 0 && RewardsBacked(f) && f.paid == map[]
    ensures Share(g, f) <= f.balance
  {
    ShareWithinTakings(Get(f.collected, 0, 0), g.sizes[0]);
    SumMapHolds(f.collected, 0);
    assert SumMap(f.paid) == 0;
  }

  /** Whatever payouts happened on the way, a payout leaves the member with exactly the floor of an
      equal share of the takings, and a single payout at the end of the run without any others
      leaves the member with the same total. That last payout goes through exactly when nothing is due
      or the transfer is made and the balance covers the share, so always while rewards are backed. */
  lemma PayoutScheduleIndependent(s0: State, calls: seq<(Account, Call)>, c: Call)
    requires Deployed(s0) && |calls| < U128_LIMIT && c.Payout?
    requires ApplyPayout(Run(s0, calls), c).Ok?
    ensures var s := Run(s0, calls);
            0 in s.reg.sizes && s.reg.sizes[0] > 0 && c.committee == 0
            && Get(ApplyPayout(s, c).value.funds.paid, (c.member, 0), 0)
               == Get(s.funds.collected, 0, 0) / s.reg.sizes[0]
    ensures var (t, share) := (Run(s0, WithoutPayouts(calls)), Share(Run(s0, calls).reg, Run(s0, calls).funds));
            && (ApplyPayout(t, c).Ok? <==> share == 0 || (c.transferOk && share <= t.funds.balance))
            && (RewardsBacked(t.funds) && c.transferOk ==> ApplyPayout(t, c).Ok?)
            && (ApplyPayout(t, c).Ok? ==>
              Get(ApplyPayout(t, c).value.funds.paid, (c.member, 0), 0)
                == Get(ApplyPayout(Run(s0, calls), c).value.funds.paid, (c.member, 0), 0))
  {
    ReachableRewards(s0, calls);
    PayoutEffect(Run(s0, calls), c);
    PayoutsDoNotMatter(s0, s0, calls);
    WithoutPayoutsShorter(calls);
    ReachableRewards(s0, WithoutPayouts(calls));
    DeployedWellFormed(s0);
    NothingPaid(s0, calls);
    FirstPayout(Run(s0, WithoutPayouts(calls)), c);
    if RewardsBacked(Run(s0, WithoutPayouts(calls)).funds) {
      BackedShare(Run(s0, WithoutPayouts(calls)).reg, Run(s0, WithoutPayouts(calls)).funds);
    }
    if ApplyPayout(Run(s0, WithoutPayouts(calls)), c).Ok? {
      PayoutEffect(Run(s0, WithoutPayouts(calls)), c);
    }
  }

  // ----- pocket money

  /** A minting vote keeps pocket money within what the pool was funded with if and only if the
      uncommitted rest of the pool covers it; the contract compares with the whole pool instead. */
  lemma PocketWithinPool(s: State, caller: Account, c: Call)
    requires c.Receive? && Next(s, caller, c).votes.minted != s.votes.minted
    requires s.funds.pocketPaid <= s.funds.pocketPool && c.pocketOk && s.funds.pocketMoney <= s.funds.balance
    ensures var f := Next(s, caller, c).funds;
            f.pocketPaid <= f.pocketPool
            <==> (s.funds.pocketMoney <= s.funds.pocketPool - s.funds.pocketPaid
                  || s.funds.pocketPool < s.funds.pocketMoney)
  {
  }

  /** A vote that reaches the quorum of a one-guardian committee, with pocket money to send. */
  lemma LoneVoteMints(s: State, a: Account, r: AzRequest)
    requires !s.halted && (r.committee, a) in s.reg.committees && AzDigest(r) !in s.votes.processed
    requires (AzDigest(r), a) !in s.votes.signatures && s.votes.pending == map[]
    requires s.reg.committeeId in s.reg.thresholds && s.reg.thresholds[s.reg.committeeId] == 1
    requires s.funds.pocketMoney <= s.funds.pocketPool && s.funds.pocketMoney <= s.funds.balance
    ensures var s' := Next(s, a, Ballot(r));
            && s'.reg == s.reg && !s'.halted && s'.votes.pending == map[]
            && s'.votes.processed == s.votes.processed + {AzDigest(r)}
            && s'.votes.signatures == s.votes.signatures + {(AzDigest(r), a)}
            && s'.funds == s.funds.(balance := s.funds.balance - s.funds.pocketMoney,
                                    pocketPaid := s.funds.pocketPaid + s.funds.pocketMoney)
            && s'.tokens.pairs == s.tokens.pairs && s'.tokens.requestNonce == s.tokens.requestNonce
            && Get(s'.tokens.supply, r.token, 0) == Get(s.tokens.supply, r.token, 0) + r.amount
  {
    assert Get(s.votes.pending, AzDigest(r), 0) == 0;
    assert s.votes.pending - {AzDigest(r)} == map[];
  }

  lemma {:induction false} RunInTwo(s: State, a: seq<(Account, Call)>, b: seq<(Account, Call)>)
    ensures Run(s, a + b) == Run(Run(s, a), b)
    decreases |b|
  {
    if b == [] {
      assert a + b == a;
    } else {
      assert a + b == (a + [b[0]]) + b[1..];
      RunInTwo(s, a + [b[0]], b[1..]);
      RunSnoc(s, a, b[0].0, b[0].1);
    }
  }

  ghost predicate ReadyForTraffic(s: State) {
    && !s.halted && s.reg == Registry(0, {(0, 1)}, map[0 := 1], map[0 := 1], [[1]])
    && s.votes == Ballots(map[], {}, {}, []) && s.funds == Funds(map[], map[], 5, 5, 5, 0, 0, 0)
    && s.tokens == Tokens(0, map[2 := 3], [], map[], map[])
  }

  lemma SetupReady(s0: State)
    requires Init([1], 1, 5, 9, 0, map[]) == Ok(s0)
    ensures ReadyForTraffic(Next(Next(Next(s0, 9, AddPair(2, 3, true)), 9, SetHalted(false)), 4, Fund(5)))
  {
    assert Roster(0, [1]) == {(0, 1)};
  }

  lemma FeeComesIn(s: State, send: Call)
    requires !s.halted && s.reg.committeeId == 0 && s.tokens.pairs == map[2 := 3] && s.tokens.requestNonce == 0
    requires Get(s.tokens.supply, 2, 0) == 10 && s.funds == Funds(map[], map[], 5, 5, 0, 5, 0, 0)
    requires send == Send(2, 1, 8, 5, Some(5), true, true)
    ensures var s' := Next(s, 4, send);
            s'.votes == s.votes && s'.reg == s.reg && !s'.halted
              && s'.funds == Funds(map[0 := 5], map[], 5, 5, 5, 5, 0, 0)
  {
  }

  lemma PocketTwice(s3: State, r1: AzRequest, r2: AzRequest, send: Call)
    requires ReadyForTraffic(s3)
    requires r1 != r2 && r1.committee == r2.committee == 0 && r1.token == 2 && r1.amount == 10
    requires send == Send(2, 1, 8, 5, Some(5), true, true)
    ensures Next(Next(Next(s3, 1, Ballot(r1)), 4, send), 1, Ballot(r2)).funds
            == Funds(map[0 := 5], map[], 5, 5, 0, 10, 0, 0)
  {
    AzRoundTrip(r1);
    AzRoundTrip(r2);
    LoneVoteMints(s3, 1, r1);
    var s4 := Next(s3, 1, Ballot(r1));
    FeeComesIn(s4, send);
    LoneVoteMints(Next(s4, 4, send), 1, r2);
  }

  /** A run in which pocket money is paid twice out of a pool funded once, so that the second payment
      is taken from the rewards: five units are owed to the committee and the balance is zero. */
  lemma PocketMoneyEatsRewards(s0: State, r1: AzRequest, r2: AzRequest, send: Call)
    requires Init([1], 1, 5, 9, 0, map[]) == Ok(s0)
    requires r1 != r2 && r1.committee == r2.committee == 0 && r1.token == 2 && r1.amount == 10
    requires send == Send(2, 1, 8, 5, Some(5), true, true)
    ensures var setup := [(9, AddPair(2, 3, true)), (9, SetHalted(false)), (4, Fund(5))];
            var traffic := [(1, Ballot(r1)), (4, send), (1, Ballot(r2))];
            Run(s0, setup + traffic).funds == Funds(map[0 := 5], map[], 5, 5, 0, 10, 0, 0)
  {
    var (a, b, c) := ((9, AddPair(2, 3, true)), (9, SetHalted(false)), (4, Fund(5)));
    var (d, e, f) := ((1, Ballot(r1)), (4, send), (1, Ballot(r2)));
    RunInTwo(s0, [a, b, c], [d, e, f]);
    RunThree(s0, a, b, c);
    SetupReady(s0);
    var s3 := Run(s0, [a, b, c]);
    RunThree(s3, d, e, f);
    PocketTwice(s3, r1, r2, send);
  }
}
