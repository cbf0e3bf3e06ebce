/** The ink! contract with its storage fields. Each message does exactly what `AzeroSpec` says or rolls
    back, keeps the books in order, and gives its caller what `AzeroEffects` describes. */
module AzeroContract {
  import opened Prelude
  import opened Bytes
  import opened Requests
  import opened AzeroSpec
  import opened AzeroRewards
  import opened AzeroEffects

  /** `check_committee`: the nested loops find a repeated account if there is one. */
  method CheckCommitteeMembers(members: seq<Account>, threshold: U128) returns (r: Result<(), Error>)
    ensures r == CheckCommittee(members, threshold)
    ensures r.Ok? <==> threshold >= 1 && threshold % U32_LIMIT <= |members| && Distinct(members)
  {
    if threshold == 0 || |members| < threshold % U32_LIMIT {
      return Err(InvalidThreshold);
    }
    for i := 0 to |members|
      invariant forall k, l :: 0 <= k < i && k < l < |members| ==> members[k] != members[l]
    {
      for j := i + 1 to |members|
        invariant forall l :: i < l < j ==> members[i] != members[l]
      {
        if members[i] == members[j] {
          return Err(DuplicateCommitteeMember);
        }
      }
    }
    return Ok(());
  }

  // ----- what an outcome that follows the specification means in a sound state

  lemma SendOutcome(s: State, s': State, r: Result<(), Error>, caller: Account, c: Call,
                    balance: nat, supply: map<Bytes32, nat>)
    requires c.Send? && Follows(ApplySend(s, c), s, s', r)
    ensures Answers(s, s', caller, c, r)
    ensures Sound(s, balance, supply) ==> Sound(s', balance, supply)
    ensures Sound(s, balance, supply) && r.Ok? ==> SentOut(s, s', c)
  {
    assert s' == Next(s, caller, c);
    Answered(s, s', caller, c, r);
    if Sound(s, balance, supply) {
      SoundKept(s, balance, supply, caller, c);
      if r.Ok? {
        SendMeans(s, c);
      }
    }
  }

  lemma VoteOutcome(s: State, s': State, r: Result<(), Error>, caller: Account, c: Call,
                    balance: nat, supply: map<Bytes32, nat>)
    requires c.Receive? && Follows(ApplyReceive(s, caller, c), s, s', r)
    ensures Answers(s, s', caller, c, r)
    ensures Sound(s, balance, supply) ==> Sound(s', balance, supply)
    ensures Sound(s, balance, supply) && r.Ok? ==> VoteTaken(s, s', caller, c)
  {
    assert s' == Next(s, caller, c);
    Answered(s, s', caller, c, r);
    if Sound(s, balance, supply) {
      SoundKept(s, balance, supply, caller, c);
      if r.Ok? {
        VoteMeans(s, caller, c);
      }
    }
  }

  lemma PayoutOutcome(s: State, s': State, r: Result<(), Error>, caller: Account, c: Call,
                      balance: nat, supply: map<Bytes32, nat>)
    requires c.Payout? && Follows(ApplyPayout(s, c), s, s', r)
    ensures Answers(s, s', caller, c, r)
    ensures Sound(s, balance, supply) ==> Sound(s', balance, supply)
    ensures Sound(s, balance, supply) && r.Ok? ==> PaidUp(s, s', c)
  {
    assert s' == Next(s, caller, c);
    Answered(s, s', caller, c, r);
    if Sound(s, balance, supply) {
      SoundKept(s, balance, supply, caller, c);
      if r.Ok? {
        PayoutMeans(s, caller, c);
      }
    }
  }

  lemma FundingOutcome(s: State, s': State, r: Result<(), Error>, caller: Account, c: Call,
                       balance: nat, supply: map<Bytes32, nat>)
    requires c.Fund? && Follows(ApplyFunding(s, caller, c), s, s', r)
    ensures Answers(s, s', caller, c, r)
    ensures r.Ok? ==> PlainlyDone(s, s', c)
    ensures Sound(s, balance, supply) ==>
              Sound(s', balance, supply) && (RewardsBacked(s.funds) ==> RewardsBacked(s'.funds))
  {
    assert s' == Next(s, caller, c);
    if r.Ok? {
      PlainMeans(s, caller, c);
    }
    Answered(s, s', caller, c, r);
    if Sound(s, balance, supply) {
      SoundKept(s, balance, supply, caller, c);
      if RewardsBacked(s.funds) {
        BackingKeptIff(s, caller, c);
      }
    }
  }

  lemma RecoveryOutcome(s: State, s': State, r: Result<(), Error>, caller: Account, c: Call,
                        balance: nat, supply: map<Bytes32, nat>)
    requires c.RecoverAzero? && Follows(ApplyFunding(s, caller, c), s, s', r)
    ensures Answers(s, s', caller, c, r)
    ensures r.Ok? ==> PlainlyDone(s, s', c)
    ensures Sound(s, balance, supply) ==> Sound(s', balance, supply)
    ensures Sound(s, balance, supply) && RewardsBacked(s.funds) && r.Ok? ==>
              (RewardsBacked(s'.funds)
               <==> c.amount <= s.funds.balance + SumMap(s.funds.paid) - SumMap(s.funds.collected))
  {
    assert s' == Next(s, caller, c);
    if r.Ok? {
      PlainMeans(s, caller, c);
    }
    Answered(s, s', caller, c, r);
    if Sound(s, balance, supply) {
      SoundKept(s, balance, supply, caller, c);
      if RewardsBacked(s.funds) {
        BackingKeptIff(s, caller, c);
      }
    }
  }

  lemma RotationOutcome(s: State, s': State, r: Result<(), Error>, caller: Account, c: Call,
                        balance: nat, supply: map<Bytes32, nat>)
    requires c.SetCommittee? && Follows(ApplySetCommittee(s, caller, c), s, s', r)
    ensures Answers(s, s', caller, c, r)
    ensures Sound(s, balance, supply) && s.reg.committeeId + 1 < U128_LIMIT ==>
              Sound(s', balance, supply) && (r.Ok? ==> Rotated(s.reg, s'.reg, c))
  {
    assert s' == Next(s, caller, c);
    Answered(s, s', caller, c, r);
    if Sound(s, balance, supply) && s.reg.committeeId + 1 < U128_LIMIT {
      SoundKept(s, balance, supply, caller, c);
      if r.Ok? {
        RotationMeans(s, caller, c);
      }
    }
  }

  lemma PlainOutcome(s: State, s': State, r: Result<(), Error>, caller: Account, c: Call,
                     balance: nat, supply: map<Bytes32, nat>)
    requires (c.SetHalted? || c.AddPair? || c.RemovePair?) && Follows(Apply(s, caller, c), s, s', r)
    ensures Answers(s, s', caller, c, r)
    ensures r.Ok? ==> PlainlyDone(s, s', c)
    ensures Sound(s, balance, supply) ==> Sound(s', balance, supply)
  {
    assert s' == Next(s, caller, c);
    Answered(s, s', caller, c, r);
    if r.Ok? {
      PlainMeans(s, caller, c);
    }
    if Sound(s, balance, supply) {
      SoundKept(s, balance, supply, caller, c);
    }
  }

  /** Storage grouped as in the specification: committees, votes, native money, tokens. */
  class Most {
    var isHalted: bool
    var owner: Account
    var reg: Registry
    var votes: Ballots
    var funds: Funds
    var tokens: Tokens
    ghost const openingBalance: nat
    ghost const openingSupply: map<Bytes32, nat>

    ghost function Model(): State
      reads this
    {
      State(isHalted, owner, reg, votes, funds, tokens)
    }

    ghost predicate Valid()
      reads this
    {
      Sound(Model(), openingBalance, openingSupply)
    }

    /** `new`, on arguments that pass `check_committee`. */
    constructor (members: seq<Account>, threshold: U128, pocketMoney: U128, owner: Account,
                 balance: nat, supply: map<Bytes32, nat>)
      requires |members| < U32_LIMIT && CheckCommittee(members, threshold).Ok?
      ensures Init(members, threshold, pocketMoney, owner, balance, supply) == Ok(Model()) && Valid()
      ensures openingBalance == balance && openingSupply == supply
    {
      isHalted, this.owner := true, owner;
      reg := Registry(0, set a | a in members :: (0, a), map[0 := |members|], map[0 := threshold], [members]);
      votes := Ballots(map[], {}, {}, []);
      funds := Funds(map[], map[], pocketMoney, 0, balance, 0, 0, 0);
      tokens := Tokens(0, map[], [], supply, map[]);
      openingBalance, openingSupply := balance, supply;
      new;
      assert Init(members, threshold, pocketMoney, owner, balance, supply) == Ok(Model());
      DeployedSound(Model());
    }

    /** `new`, error cases included. */
    static method New(members: seq<Account>, threshold: U128, pocketMoney: U128, owner: Account,
                      balance: nat, supply: map<Bytes32, nat>) returns (r: Result<Most, Error>)
      requires |members| < U32_LIMIT
      ensures match Init(members, threshold, pocketMoney, owner, balance, supply)
              case Err(e) => r == Err(e)
              case Ok(s) => r.Ok? && fresh(r.value) && r.value.Model() == s && r.value.Valid()
      ensures r.Ok? <==> threshold >= 1 && threshold % U32_LIMIT <= |members| && Distinct(members)
      ensures r.Ok? ==> Founded(r.value.Model(), members, threshold, pocketMoney, owner, balance, supply)
    {
      InitMeans(members, threshold, pocketMoney, owner, balance, supply);
      var checked := CheckCommitteeMembers(members, threshold);
      if checked.Err? { return Err(checked.error); }
      var most := new Most(members, threshold, pocketMoney, owner, balance, supply);
      return Ok(most);
    }

    method SendRequest(caller: Account, source: Bytes32, amount: U128, receiver: Bytes32, value: U128,
                       fee: Option<U128>, burnOk: bool, refundOk: bool) returns (r: Result<(), Error>)
      modifies this
      ensures Follows(ApplySend(old(Model()), Send(source, amount, receiver, value, fee, burnOk, refundOk)),
                      old(Model()), Model(), r)
      ensures Answers(old(Model()), Model(), caller, Send(source, amount, receiver, value, fee, burnOk, refundOk), r)
      ensures old(Valid()) ==> Valid()
      ensures old(Valid()) && r.Ok? ==>
                SentOut(old(Model()), Model(), Send(source, amount, receiver, value, fee, burnOk, refundOk))
    {
      r := SendOut(source, amount, receiver, value, fee, burnOk, refundOk);
      SendOutcome(old(Model()), Model(), r, caller, Send(source, amount, receiver, value, fee, burnOk, refundOk),
                  openingBalance, openingSupply);
    }

    /** The body of `send_request`. */
    method SendOut(source: Bytes32, amount: U128, receiver: Bytes32, value: U128,
                   fee: Option<U128>, burnOk: bool, refundOk: bool) returns (r: Result<(), Error>)
      modifies this
      ensures Follows(ApplySend(old(Model()), Send(source, amount, receiver, value, fee, burnOk, refundOk)),
                      old(Model()), Model(), r)
    {
      if isHalted { return Err(IsHalted); }
      if receiver == 0 { return Err(ZeroAddress); }
      if amount == 0 { return Err(ZeroTransferAmount); }
      if source !in tokens.pairs { return Err(UnsupportedPair); }
      if fee.None? { return Err(Arithmetic); }
      if value < fee.value { return Err(BaseFeeTooLow); }
      var held := Get(tokens.supply, source, 0);
      if !burnOk || held < amount { return Err(PSP22); }
      var total: nat := Get(funds.collected, reg.committeeId, 0) + fee.value;
      if total >= U128_LIMIT { return Err(Arithmetic); }
      var nonce := tokens.requestNonce;
      if nonce + 1 >= U128_LIMIT { return Err(Arithmetic); }
      if value > fee.value && !refundOk { return Err(InkEnvError); }
      var event := Request(reg.committeeId, tokens.pairs[source], amount, receiver, nonce);
      var surplus: nat := value - fee.value;
      funds := funds.(collected := funds.collected[reg.committeeId := total],
                      balance := funds.balance + value - surplus);
      tokens := tokens.(requestNonce := nonce + 1, supply := tokens.supply[source := held - amount],
                        sent := tokens.sent + [Sent(source, event)]);
      return Ok(());
    }

    method ReceiveRequest(caller: Account, digest: Digest, request: AzRequest, mintOk: bool, pocketOk: bool)
      returns (r: Result<(), Error>)
      modifies this
      ensures Follows(ApplyReceive(old(Model()), caller, Receive(digest, request, mintOk, pocketOk)),
                      old(Model()), Model(), r)
      ensures Answers(old(Model()), Model(), caller, Receive(digest, request, mintOk, pocketOk), r)
      ensures old(Valid()) ==> Valid()
      ensures old(Valid()) && r.Ok? ==>
                VoteTaken(old(Model()), Model(), caller, Receive(digest, request, mintOk, pocketOk))
    {
      r := TakeVote(caller, digest, request, mintOk, pocketOk);
      VoteOutcome(old(Model()), Model(), r, caller, Receive(digest, request, mintOk, pocketOk),
                  openingBalance, openingSupply);
    }

    /** The body of `receive_request`. */
    method TakeVote(caller: Account, digest: Digest, request: AzRequest, mintOk: bool, pocketOk: bool)
      returns (r: Result<(), Error>)
      modifies this
      ensures Follows(ApplyReceive(old(Model()), caller, Receive(digest, request, mintOk, pocketOk)),
                      old(Model()), Model(), r)
    {
      if isHalted { return Err(IsHalted); }
      if (request.committee, caller) !in reg.committees { return Err(NotInCommittee); }
      if digest in votes.processed { return Ok(()); }
      if (digest, caller) in votes.signatures { return Ok(()); }
      if digest != AzDigest(request) { return Err(HashDoesNotMatchData); }
      var count := (Get(votes.pending, digest, 0) as nat) + 1;
      if count >= U128_LIMIT { return Err(Arithmetic); }
      if reg.committeeId !in reg.thresholds { return Err(InvalidThreshold); }
      var signed := votes.signatures + {(digest, caller)};
      if count < reg.thresholds[reg.committeeId] {
        votes := votes.(signatures := signed, pending := votes.pending[digest := count]);
        return Ok(());
      }
      if !mintOk { return Err(PSP22); }
      MintTo(request.token, request.amount);
      if funds.pocketPool >= funds.pocketMoney {
        // best effort; the decremented pool stays in a local copy and is not stored
        if pocketOk && funds.pocketMoney <= funds.balance {
          funds := funds.(balance := funds.balance - funds.pocketMoney,
                          pocketPaid := funds.pocketPaid + funds.pocketMoney);
        }
      }
      votes := Ballots(votes.pending - {digest}, signed, votes.processed + {digest},
                       votes.minted + [Mint(digest, request, reg.committeeId)]);
      return Ok(());
    }

    method MintTo(token: Bytes32, amount: nat)
      modifies this`tokens
      ensures tokens == old(tokens).(supply := old(tokens).supply[token := Get(old(tokens).supply, token, 0) + amount])
    {
      tokens := tokens.(supply := tokens.supply[token := Get(tokens.supply, token, 0) + amount]);
    }

    method PayoutRewards(caller: Account, committee: CommitteeId, member: Account, transferOk: bool)
      returns (r: Result<(), Error>)
      modifies this
      ensures Follows(ApplyPayout(old(Model()), Payout(committee, member, transferOk)), old(Model()), Model(), r)
      ensures Answers(old(Model()), Model(), caller, Payout(committee, member, transferOk), r)
      ensures old(Valid()) ==> Valid()
      ensures old(Valid()) && r.Ok? ==> PaidUp(old(Model()), Model(), Payout(committee, member, transferOk))
    {
      r := PayMember(committee, member, transferOk);
      PayoutOutcome(old(Model()), Model(), r, caller, Payout(committee, member, transferOk),
                    openingBalance, openingSupply);
    }

    /** The body of `payout_rewards`. */
    method PayMember(committee: CommitteeId, member: Account, transferOk: bool) returns (r: Result<(), Error>)
      modifies this
      ensures Follows(ApplyPayout(old(Model()), Payout(committee, member, transferOk)), old(Model()), Model(), r)
    {
      if isHalted { return Err(IsHalted); }
      var taken := Get(funds.paid, (member, committee), 0);
      var due := DueTo(committee, member);
      if due.Err? { return Err(due.error); }
      if due.value > 0 {
        if !transferOk || funds.balance < due.value { return Err(InkEnvError); }
        var total: nat := taken + due.value;
        if total >= U128_LIMIT { return Err(Arithmetic); }
        funds := funds.(paid := funds.paid[(member, committee) := total], balance := funds.balance - due.value);
      }
      return Ok(());
    }

    /** Answers members of the first committee and nobody else, with what is missing to an equal share. */
    method OutstandingMemberRewards(committee: CommitteeId, member: Account) returns (r: Result<U128, Error>)
      ensures r == Outstanding(Model(), committee, member)
      ensures Valid() ==> (r.Ok? <==> committee == 0 && member in Members(reg, 0))
      ensures Valid() && r.Ok? ==> EqualShare(reg, funds, Get(funds.paid, (member, 0), 0) + r.value)
    {
      if Valid() {
        OutstandingMeans(Model(), committee, member);
      }
      r := DueTo(committee, member);
    }

    /** The body of `get_outstanding_member_rewards`. */
    method DueTo(committee: CommitteeId, member: Account) returns (r: Result<U128, Error>)
      ensures r == Outstanding(Model(), committee, member)
    {
      if (committee, member) !in reg.committees { return Err(NotInCommittee); }
      if committee !in reg.sizes { return Err(NoSuchCommittee); }
      if reg.sizes[committee] == 0 { return Err(Arithmetic); }
      var total := Get(funds.collected, committee, 0) / reg.sizes[committee];
      var taken := Get(funds.paid, (member, committee), 0);
      return Ok(if total > taken then total - taken else 0);
    }

    /** Funding never takes money away from the rewards. */
    method FundPocketMoney(caller: Account, value: U128) returns (r: Result<(), Error>)
      modifies this
      ensures Follows(ApplyFunding(old(Model()), caller, Fund(value)), old(Model()), Model(), r)
      ensures Answers(old(Model()), Model(), caller, Fund(value), r)
      ensures r.Ok? ==> PlainlyDone(old(Model()), Model(), Fund(value))
      ensures old(Valid()) ==> Valid() && (old(RewardsBacked(funds)) ==> RewardsBacked(funds))
    {
      if funds.pocketPool + value >= U128_LIMIT {
        r := Err(Arithmetic);
      } else {
        funds := funds.(pocketPool := funds.pocketPool + value, balance := funds.balance + value);
        r := Ok(());
      }
      FundingOutcome(old(Model()), Model(), r, caller, Fund(value), openingBalance, openingSupply);
    }

    /** A recovery leaves the rewards backed exactly when it takes no more than the balance holds beyond
        the rewards owed. */
    method Recover(caller: Account, amount: U128, transferOk: bool) returns (r: Result<(), Error>)
      modifies this
      ensures Follows(ApplyFunding(old(Model()), caller, RecoverAzero(amount, transferOk)), old(Model()), Model(), r)
      ensures Answers(old(Model()), Model(), caller, RecoverAzero(amount, transferOk), r)
      ensures r.Ok? ==> PlainlyDone(old(Model()), Model(), RecoverAzero(amount, transferOk))
      ensures old(Valid()) ==> Valid()
      ensures old(Valid()) && old(RewardsBacked(funds)) && r.Ok? ==>
                (RewardsBacked(funds) <==> amount <= old(funds.balance + SumMap(funds.paid) - SumMap(funds.collected)))
    {
      r := TakeOut(caller, amount, transferOk);
      RecoveryOutcome(old(Model()), Model(), r, caller, RecoverAzero(amount, transferOk),
                      openingBalance, openingSupply);
    }

    /** The body of `recover_azero`. */
    method TakeOut(caller: Account, amount: U128, transferOk: bool) returns (r: Result<(), Error>)
      modifies this
      ensures Follows(ApplyFunding(old(Model()), caller, RecoverAzero(amount, transferOk)), old(Model()), Model(), r)
    {
      if caller != owner { return Err(NotOwner); }
      if !transferOk || funds.balance < amount { return Err(InkEnvError); }
      funds := funds.(balance := funds.balance - amount, recovered := funds.recovered + amount);
      return Ok(());
    }

    /** The new committee is exactly the list, and earlier committees stay as they were, as long as the
        unchecked counter does not wrap. */
    method RotateCommittee(caller: Account, members: seq<Account>, threshold: U128) returns (r: Result<(), Error>)
      modifies this
      ensures Follows(ApplySetCommittee(old(Model()), caller, SetCommittee(members, threshold)),
                      old(Model()), Model(), r)
      ensures Answers(old(Model()), Model(), caller, SetCommittee(members, threshold), r)
      ensures r.Ok? ==> Model() == old(Model()).(reg := reg)
      ensures old(Valid()) && old(reg.committeeId) + 1 < U128_LIMIT ==>
                Valid() && (r.Ok? ==> Rotated(old(reg), reg, SetCommittee(members, threshold)))
    {
      r := Seat(caller, members, threshold);
      RotationOutcome(old(Model()), Model(), r, caller, SetCommittee(members, threshold),
                      openingBalance, openingSupply);
    }

    /** The body of `set_committee`. */
    method Seat(caller: Account, members: seq<Account>, threshold: U128) returns (r: Result<(), Error>)
      modifies this
      ensures Follows(ApplySetCommittee(old(Model()), caller, SetCommittee(members, threshold)),
                      old(Model()), Model(), r)
    {
      if caller != owner { return Err(NotOwner); }
      if !isHalted { return Err(HaltRequired); }
      r := CheckCommitteeMembers(members, threshold);
      if r.Err? { return; }
      var id := (reg.committeeId + 1) % U128_LIMIT;
      reg := reg.(committeeId := id, committees := reg.committees + Roster(id, members),
                  thresholds := reg.thresholds[id := threshold], rosters := reg.rosters + [members]);
    }

    /** After halting, no sequence of calls without the owner moves votes, requests or rewards. */
    method Halt(caller: Account, halt: bool) returns (r: Result<(), Error>)
      modifies this
      ensures Follows(Apply(old(Model()), caller, SetHalted(halt)), old(Model()), Model(), r)
      ensures Answers(old(Model()), Model(), caller, SetHalted(halt), r)
      ensures r.Ok? ==> isHalted == halt && PlainlyDone(old(Model()), Model(), SetHalted(halt))
      ensures old(Valid()) ==> Valid()
      ensures r.Ok? && halt ==> Frozen(Model())
    {
      if caller != owner {
        r := Err(NotOwner);
      } else {
        if halt != isHalted { isHalted := halt; }
        r := Ok(());
        if halt {
          HaltedIsFrozen(Model());
        }
      }
      PlainOutcome(old(Model()), Model(), r, caller, SetHalted(halt), openingBalance, openingSupply);
    }

    /** Afterwards `from` leads to `to`, and every other pair is as it was. */
    method PairTokens(caller: Account, from: Bytes32, to: Bytes32, canMint: bool) returns (r: Result<(), Error>)
      modifies this
      ensures Follows(Apply(old(Model()), caller, AddPair(from, to, canMint)), old(Model()), Model(), r)
      ensures Answers(old(Model()), Model(), caller, AddPair(from, to, canMint), r)
      ensures r.Ok? ==> PlainlyDone(old(Model()), Model(), AddPair(from, to, canMint))
      ensures old(Valid()) ==> Valid()
    {
      if caller != owner {
        r := Err(NotOwner);
      } else if !isHalted {
        r := Err(HaltRequired);
      } else if !canMint {
        r := Err(NoMintPermission);
      } else {
        tokens := tokens.(pairs := tokens.pairs[from := to]);
        r := Ok(());
      }
      PlainOutcome(old(Model()), Model(), r, caller, AddPair(from, to, canMint), openingBalance, openingSupply);
    }

    /** Afterwards `from` leads nowhere, and every other pair is as it was. */
    method UnpairTokens(caller: Account, from: Bytes32) returns (r: Result<(), Error>)
      modifies this
      ensures Follows(Apply(old(Model()), caller, RemovePair(from)), old(Model()), Model(), r)
      ensures Answers(old(Model()), Model(), caller, RemovePair(from), r)
      ensures r.Ok? ==> PlainlyDone(old(Model()), Model(), RemovePair(from))
      ensures old(Valid()) ==> Valid()
    {
      if caller != owner {
        r := Err(NotOwner);
      } else if !isHalted {
        r := Err(HaltRequired);
      } else {
        tokens := tokens.(pairs := tokens.pairs - {from});
        r := Ok(());
      }
      PlainOutcome(old(Model()), Model(), r, caller, RemovePair(from), openingBalance, openingSupply);
    }

    /** Not messages: plain transfers to the contract, and holders burning their own tokens. */
    method Outside(caller: Account, c: Call)
      requires c.Donate? || c.HolderBurn?
      modifies this
      ensures Model() == Next(old(Model()), caller, c)
    {
      match c
      case Donate(value) => funds := funds.(balance := funds.balance + value, donated := funds.donated + value);
      case HolderBurn(token, amount) =>
        var held := Get(tokens.supply, token, 0);
        if amount <= held {
          tokens := tokens.(supply := tokens.supply[token := held - amount],
                            heldBurned := tokens.heldBurned[token := Get(tokens.heldBurned, token, 0) + amount]);
        }
    }

    /** Any call, by the method it stands for. */
    method Handle(caller: Account, c: Call)
      modifies this
      ensures Model() == Next(old(Model()), caller, c)
    {
      match c
      case Send(source, amount, receiver, value, fee, burnOk, refundOk) =>
        var _ := SendRequest(caller, source, amount, receiver, value, fee, burnOk, refundOk);
      case Receive(digest, request, mintOk, pocketOk) =>
        var _ := ReceiveRequest(caller, digest, request, mintOk, pocketOk);
      case Payout(committee, member, transferOk) => var _ := PayoutRewards(caller, committee, member, transferOk);
      case Fund(value) => var _ := FundPocketMoney(caller, value);
      case SetCommittee(members, threshold) => var _ := RotateCommittee(caller, members, threshold);
      case SetHalted(halt) => var _ := Halt(caller, halt);
      case AddPair(from, to, canMint) => var _ := PairTokens(caller, from, to, canMint);
      case RemovePair(from) => var _ := UnpairTokens(caller, from);
      case RecoverAzero(amount, transferOk) => var _ := Recover(caller, amount, transferOk);
      case _ => Outside(caller, c);
    }

    /** The class refines the specification over whole runs: what is proved about `Run` is true of the
        contract after any sequence of calls. */
    method Replay(calls: seq<(Account, Call)>)
      modifies this
      ensures Model() == Run(old(Model()), calls)
    {
      assert calls[0..] == calls;
      for i := 0 to |calls|
        invariant Run(Model(), calls[i..]) == Run(old(Model()), calls)
      {
        assert calls[i..][1..] == calls[i + 1..];
        Handle(calls[i].0, calls[i].1);
      }
    }
  }
}
