/** The ink! `Most` contract as a function from states to states, one case per message, together
    with the part of the chain it acts on (its native balance, token supplies and its event log). */
module AzeroSpec {
  import opened Prelude
  import opened Bytes
  import opened Requests
  import opened Tally

  type Account = Bytes32
  type CommitteeId = U128

  datatype Error =
    | InvalidThreshold | DuplicateCommitteeMember | ZeroTransferAmount | NotInCommittee | NoSuchCommittee
    | HashDoesNotMatchData | PSP22 | NotOwner | UnsupportedPair | InkEnvError | BaseFeeTooLow | Arithmetic
    | IsHalted | HaltRequired | NoMintPermission | ZeroAddress

  datatype Sent = Sent(source: Bytes32, request: AzRequest)
  /** A mint, with the committee whose threshold was compared against. */
  datatype Mint = Mint(digest: Digest, request: AzRequest, judgedBy: CommitteeId)

  /** Who may vote, and the list each committee was set to. */
  datatype Registry = Registry(
    committeeId: CommitteeId, committees: set<(CommitteeId, Account)>, sizes: map<CommitteeId, U128>,
    thresholds: map<CommitteeId, U128>, rosters: seq<seq<Account>>)

  /** Votes in progress, the replay protection, and the mints that came of it. */
  datatype Ballots = Ballots(
    pending: map<Digest, U128>, signatures: set<(Digest, Account)>, processed: set<Digest>, minted: seq<Mint>)

  /** Native money: the contract's books, its balance on the chain, and what left or entered unbooked. */
  datatype Funds = Funds(
    collected: map<CommitteeId, U128>, paid: map<(Account, CommitteeId), U128>, pocketMoney: U128, pocketPool: U128,
    balance: nat, pocketPaid: nat, recovered: nat, donated: nat)

  /** Bridged tokens and the requests sent out for them. */
  datatype Tokens = Tokens(
    requestNonce: U128, pairs: map<Bytes32, Bytes32>, sent: seq<Sent>,
    supply: map<Bytes32, nat>, heldBurned: map<Bytes32, nat>)

  datatype State = State(halted: bool, owner: Account, reg: Registry, votes: Ballots, funds: Funds, tokens: Tokens)

  /** Calls together with what the environment answers: the oracle's fee (`None` on overflow), and
      whether token calls and native transfers made by the contract go through. */
  datatype Call =
    | Send(source: Bytes32, amount: U128, receiver: Bytes32, value: U128, fee: Option<U128>, burnOk: bool,
           refundOk: bool)
    | Receive(digest: Digest, request: AzRequest, mintOk: bool, pocketOk: bool)
    | Payout(committee: CommitteeId, member: Account, transferOk: bool)
    | Fund(value: U128)
    | SetCommittee(members: seq<Account>, threshold: U128)
    | SetHalted(halt: bool)
    | AddPair(from: Bytes32, to: Bytes32, canMint: bool)
    | RemovePair(from: Bytes32)
    | RecoverAzero(amount: U128, transferOk: bool)
    // not messages of the contract: plain transfers to it, and holders burning their own tokens
    | Donate(value: U128)
    | HolderBurn(token: Bytes32, amount: U128)

  ghost function Voters(votes: Ballots, h: Digest): set<Account> {
    Signers(votes.signatures, h)
  }

  ghost function Members(reg: Registry, c: CommitteeId): set<Account> {
    set m | m in reg.committees && m.0 == c :: m.1
  }

  /** `committee.len() < threshold as usize` truncates the threshold to the 32 bits of wasm's usize. */
  ghost function CheckCommittee(members: seq<Account>, threshold: U128): Result<(), Error> {
    if threshold == 0 || |members| < threshold % U32_LIMIT then Err(InvalidThreshold)
    else if !Distinct(members) then Err(DuplicateCommitteeMember)
    else Ok(())
  }

  function Roster(c: CommitteeId, members: seq<Account>): set<(CommitteeId, Account)> {
    set a | a in members :: (c, a)
  }

  /** The contract after `new`, deployed with some native balance over tokens with some supply. */
  ghost function Init(members: seq<Account>, threshold: U128, pocketMoney: U128, owner: Account,
                      balance: nat, supply: map<Bytes32, nat>): Result<State, Error>
    requires |members| < U32_LIMIT
  {
    match CheckCommittee(members, threshold)
    case Err(e) => Err(e)
    case Ok(_) => Ok(State(true, owner,
                           Registry(0, Roster(0, members), map[0 := |members|], map[0 := threshold], [members]),
                           Ballots(map[], {}, {}, []),
                           Funds(map[], map[], pocketMoney, 0, balance, 0, 0, 0),
                           Tokens(0, map[], [], supply, map[])))
  }

  ghost function ApplySend(s: State, c: Call): Result<State, Error>
    requires c.Send?
  {
    var t := s.tokens;
    if s.halted then Err(IsHalted)
    else if c.receiver == 0 then Err(ZeroAddress)
    else if c.amount == 0 then Err(ZeroTransferAmount)
    else if c.source !in t.pairs then Err(UnsupportedPair)
    else if c.fee.None? then Err(Arithmetic)
    else if c.value < c.fee.value then Err(BaseFeeTooLow)
    else if !c.burnOk || Get(t.supply, c.source, 0) < c.amount then Err(PSP22)
    else
      var total: nat := Get(s.funds.collected, s.reg.committeeId, 0) + c.fee.value;
      if total >= U128_LIMIT || t.requestNonce + 1 >= U128_LIMIT then Err(Arithmetic)
      else if c.value > c.fee.value && !c.refundOk then Err(InkEnvError)
      else
        var r := Request(s.reg.committeeId, t.pairs[c.source], c.amount, c.receiver, t.requestNonce);
        var surplus: nat := c.value - c.fee.value;
        Ok(s.(funds := s.funds.(collected := s.funds.collected[s.reg.committeeId := total],
                                balance := s.funds.balance + c.value - surplus),
              tokens := t.(requestNonce := t.requestNonce + 1,
                           supply := t.supply[c.source := Get(t.supply, c.source, 0) - c.amount],
                           sent := t.sent + [Sent(c.source, r)])))
  }

  /** Pocket money paid with a mint: the pool is compared, but the decremented copy is never stored. */
  function PocketFor(f: Funds, c: Call): U128
    requires c.Receive?
  {
    if f.pocketPool >= f.pocketMoney && c.pocketOk && f.pocketMoney <= f.balance then f.pocketMoney else 0
  }

  ghost function ApplyReceive(s: State, caller: Account, c: Call): Result<State, Error>
    requires c.Receive?
  {
    var (r, v) := (c.request, s.votes);
    if s.halted then Err(IsHalted)
    else if (r.committee, caller) !in s.reg.committees then Err(NotInCommittee)
    else if c.digest in v.processed || (c.digest, caller) in v.signatures then Ok(s)
    else if c.digest != AzDigest(r) then Err(HashDoesNotMatchData)
    else
      var count := (Get(v.pending, c.digest, 0) as nat) + 1;
      var signed := v.signatures + {(c.digest, caller)};
      if count >= U128_LIMIT then Err(Arithmetic)
      else if s.reg.committeeId !in s.reg.thresholds then Err(InvalidThreshold)
      else if count < s.reg.thresholds[s.reg.committeeId] then
        Ok(s.(votes := v.(signatures := signed, pending := v.pending[c.digest := count])))
      else if !c.mintOk then Err(PSP22)
      else
        var pocket := PocketFor(s.funds, c);
        Ok(s.(votes := Ballots(v.pending - {c.digest}, signed, v.processed + {c.digest},
                               v.minted + [Mint(c.digest, r, s.reg.committeeId)]),
              tokens := s.tokens.(supply := s.tokens.supply[r.token := Get(s.tokens.supply, r.token, 0) + r.amount]),
              funds := s.funds.(balance := s.funds.balance - pocket, pocketPaid := s.funds.pocketPaid + pocket)))
  }

  /** `get_outstanding_member_rewards` */
  function Outstanding(s: State, committee: CommitteeId, member: Account): Result<U128, Error> {
    if (committee, member) !in s.reg.committees then Err(NotInCommittee)
    else if committee !in s.reg.sizes then Err(NoSuchCommittee)
    else if s.reg.sizes[committee] == 0 then Err(Arithmetic)
    else
      var share := Get(s.funds.collected, committee, 0) / s.reg.sizes[committee];
      var taken := Get(s.funds.paid, (member, committee), 0);
      Ok(if share > taken then share - taken else 0)
  }

  ghost function ApplyPayout(s: State, c: Call): Result<State, Error>
    requires c.Payout?
  {
    if s.halted then Err(IsHalted)
    else match Outstanding(s, c.committee, c.member)
      case Err(e) => Err(e)
      case Ok(due) =>
        if due == 0 then Ok(s)
        else if !c.transferOk || s.funds.balance < due then Err(InkEnvError)
        else
          var taken: nat := Get(s.funds.paid, (c.member, c.committee), 0) + due;
          if taken >= U128_LIMIT then Err(Arithmetic)
          else Ok(s.(funds := s.funds.(paid := s.funds.paid[(c.member, c.committee) := taken],
                                       balance := s.funds.balance - due)))
  }

  ghost function ApplySetCommittee(s: State, caller: Account, c: Call): Result<State, Error>
    requires c.SetCommittee?
  {
    if caller != s.owner then Err(NotOwner)
    else if !s.halted then Err(HaltRequired)
    else match CheckCommittee(c.members, c.threshold)
      case Err(e) => Err(e)
      case Ok(_) =>
        // unchecked addition; the size of the new committee is not recorded
        var id := (s.reg.committeeId + 1) % U128_LIMIT;
        Ok(s.(reg := s.reg.(committeeId := id, committees := s.reg.committees + Roster(id, c.members),
                            thresholds := s.reg.thresholds[id := c.threshold],
                            rosters := s.reg.rosters + [c.members])))
  }

  ghost function ApplyFunding(s: State, caller: Account, c: Call): Result<State, Error>
    requires c.Fund? || c.RecoverAzero? || c.Donate?
  {
    var f := s.funds;
    match c
    case Fund(value) =>
      if f.pocketPool + value >= U128_LIMIT then Err(Arithmetic)
      else Ok(s.(funds := f.(pocketPool := f.pocketPool + value, balance := f.balance + value)))
    case RecoverAzero(amount, transferOk) =>
      if caller != s.owner then Err(NotOwner)
      else if !transferOk || f.balance < amount then Err(InkEnvError)
      else Ok(s.(funds := f.(balance := f.balance - amount, recovered := f.recovered + amount)))
    case Donate(value) => Ok(s.(funds := f.(balance := f.balance + value, donated := f.donated + value)))
  }

  ghost function ApplyPairing(s: State, caller: Account, c: Call): Result<State, Error>
    requires c.AddPair? || c.RemovePair?
  {
    if caller != s.owner then Err(NotOwner)
    else if !s.halted then Err(HaltRequired)
    else match c
      case AddPair(from, to, canMint) =>
        if !canMint then Err(NoMintPermission)
        else Ok(s.(tokens := s.tokens.(pairs := s.tokens.pairs[from := to])))
      case RemovePair(from) => Ok(s.(tokens := s.tokens.(pairs := s.tokens.pairs - {from})))
  }

  ghost function Apply(s: State, caller: Account, c: Call): Result<State, Error> {
    match c
    case Send(_, _, _, _, _, _, _) => ApplySend(s, c)
    case Receive(_, _, _, _) => ApplyReceive(s, caller, c)
    case Payout(_, _, _) => ApplyPayout(s, c)
    case SetCommittee(_, _) => ApplySetCommittee(s, caller, c)
    case SetHalted(halt) => if caller != s.owner then Err(NotOwner) else Ok(s.(halted := halt))
    case Fund(_) => ApplyFunding(s, caller, c)
    case RecoverAzero(_, _) => ApplyFunding(s, caller, c)
    case Donate(_) => ApplyFunding(s, caller, c)
    case AddPair(_, _, _) => ApplyPairing(s, caller, c)
    case RemovePair(_) => ApplyPairing(s, caller, c)
    case HolderBurn(token, amount) =>
      var t := s.tokens;
      if Get(t.supply, token, 0) < amount then Err(PSP22)
      else Ok(s.(tokens := t.(supply := t.supply[token := Get(t.supply, token, 0) - amount],
                              heldBurned := t.heldBurned[token := Get(t.heldBurned, token, 0) + amount])))
  }

  /** A message that returns an error leaves the chain as it was. */
  ghost function Next(s: State, caller: Account, c: Call): State {
    match Apply(s, caller, c)
    case Ok(s') => s'
    case Err(_) => s
  }

  ghost function Run(s: State, calls: seq<(Account, Call)>): State
    decreases |calls|
  {
    if calls == [] then s else Run(Next(s, calls[0].0, calls[0].1), calls[1..])
  }

  /** What `new` leaves behind when it succeeds. */
  ghost predicate Deployed(s: State) {
    exists members, threshold, pocketMoney, owner, balance, supply |
      |members| < U32_LIMIT :: Init(members, threshold, pocketMoney, owner, balance, supply) == Ok(s)
  }

  /** Which part of the state a call can change. */
  lemma Frame(s: State, caller: Account, c: Call)
    ensures !c.SetCommittee? ==> Next(s, caller, c).reg == s.reg
    ensures !c.Receive? ==> Next(s, caller, c).votes == s.votes
    ensures !(c.Send? || c.Receive? || c.AddPair? || c.RemovePair? || c.HolderBurn?) ==>
              Next(s, caller, c).tokens == s.tokens
    ensures c.SetCommittee? || c.SetHalted? || c.AddPair? || c.RemovePair? || c.HolderBurn? ==>
              Next(s, caller, c).funds == s.funds
    ensures !c.SetHalted? ==> Next(s, caller, c).halted == s.halted
    ensures Next(s, caller, c).owner == s.owner
  {
  }

  /** The truncating comparison keeps the threshold within the committee exactly when the threshold
      fits in 32 bits. */
  lemma ThresholdWithinCommittee(members: seq<Account>, threshold: U128)
    requires |members| < U32_LIMIT && CheckCommittee(members, threshold).Ok?
    ensures 1 <= threshold <= |members| <==> threshold < U32_LIMIT
  {
  }

  /** One guardian with a threshold of 2^32 + 1 is accepted. */
  lemma ThresholdTruncated(guardian: Account)
    ensures CheckCommittee([guardian], U32_LIMIT + 1) == Ok(())
  {
    assert (U32_LIMIT + 1) % U32_LIMIT == 1;
  }
}
