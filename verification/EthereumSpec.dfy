/** The Solidity `Most` contract as a function from states to states, one case per external function,
    together with the tokens it holds and its log of requests and releases. */
module EthereumSpec {
  import opened Prelude
  import opened Bytes
  import opened Requests
  import opened Tally

  datatype Error =
    | EnforcedPause | ExpectedPause | NotOwner | NotInCommittee | ZeroSignatureThreshold | NotEnoughGuardians
    | DuplicateCommitteeMember | UnsupportedPair | DataHashMismatch | ZeroAmount | WrappingEth | UnwrappingEth
    | TokenTransfer | EthTransfer | Panic

  /** A processed request, and whether the tokens reached the receiver. */
  datatype Release = Release(digest: Digest, request: Request, delivered: bool)

  /** A request sent, and the token that was locked for it. */
  datatype Lock = Lock(token: Address, request: Request)

  datatype Registry = Registry(
    committeeId: U256, committee: set<Digest>, sizes: map<U256, nat>, thresholds: map<U256, U256>,
    rosters: seq<seq<Address>>)

  datatype Ballots = Ballots(
    pending: map<Digest, U256>, signatures: set<(Digest, Address)>, processed: set<Digest>, releases: seq<Release>)

  /** Tokens and ether held, requests sent, and what entered or left by other ways. */
  datatype Vault = Vault(
    requestNonce: U256, weth: Address, pairs: map<Bytes32, Bytes32>, escrow: map<Address, nat>, ether: nat,
    sent: seq<Lock>, donated: map<Address, nat>, recovered: map<Address, nat>,
    recoveredEther: nat, forcedEther: nat)

  datatype State = State(paused: bool, owner: Address, reg: Registry, votes: Ballots, vault: Vault)

  /** Calls together with what other contracts answer: whether token pulls, wrapping, unwrapping and
      deliveries to the receiver go through. */
  datatype Call =
    | Send(source: Bytes32, amount: U256, receiver: Bytes32, pullOk: bool)
    | SendNative(receiver: Bytes32, value: U256, wrapOk: bool)
    | Receive(digest: Digest, request: Request, unwrapOk: bool, deliverOk: bool)
    | SetCommittee(members: seq<Address>, threshold: U256)
    | Pause
    | Unpause
    | AddPair(from: Bytes32, to: Bytes32)
    | RemovePair(from: Bytes32)
    | RecoverERC20(token: Address, amount: U256, transferOk: bool)
    | RecoverNative(amount: U256, transferOk: bool)
    // not functions of the contract: somebody transfers tokens to it, or forces ether on it
    | Donate(token: Address, amount: U256)
    | ForceEther(amount: U256)

  ghost function Voters(votes: Ballots, h: Digest): set<Address> {
    Signers(votes.signatures, h)
  }

  predicate IsInCommittee(g: Registry, c: U256, a: Address) {
    MemberId(c, a) in g.committee
  }

  function Seats(c: U256, members: seq<Address>): set<Digest> {
    set a | a in members :: MemberId(c, a)
  }

  /** `_setCommittee` for a given id: all members are new and distinct, and a quorum can be reached. */
  ghost function Seated(g: Registry, id: U256, members: seq<Address>, threshold: U256): Result<Registry, Error> {
    if threshold == 0 then Err(ZeroSignatureThreshold)
    else if |members| < threshold then Err(NotEnoughGuardians)
    else if !Distinct(members) || exists a :: a in members && IsInCommittee(g, id, a) then Err(DuplicateCommitteeMember)
    else Ok(Registry(id, g.committee + Seats(id, members), g.sizes[id := |members|], g.thresholds[id := threshold],
                     g.rosters + [members]))
  }

  function EmptyVault(weth: Address, escrow: map<Address, nat>): Vault {
    Vault(0, weth, map[], escrow, 0, [], map[], map[], 0, 0)
  }

  /** The contract after `initialize`, next to tokens it may already hold. */
  ghost function Init(members: seq<Address>, threshold: U256, owner: Address, weth: Address, escrow: map<Address, nat>)
    : Result<State, Error>
  {
    match Seated(Registry(0, {}, map[], map[], []), 0, members, threshold)
    case Err(e) => Err(e)
    case Ok(g) => Ok(State(true, owner, g, Ballots(map[], {}, {}, []), EmptyVault(weth, escrow)))
  }

  function Held(v: Vault, token: Address): nat {
    Get(v.escrow, token, 0)
  }

  /** Tokens come in and the request is logged under the next nonce. */
  function Locked(s: State, token: Address, r: Request): Result<State, Error> {
    if s.vault.requestNonce + 1 >= U256_LIMIT then Err(Panic)
    else Ok(s.(vault := s.vault.(escrow := s.vault.escrow[token := Held(s.vault, token) + r.amount],
                                 requestNonce := s.vault.requestNonce + 1, sent := s.vault.sent + [Lock(token, r)])))
  }

  function ApplySend(s: State, c: Call): Result<State, Error>
    requires c.Send?
  {
    var dest := Get(s.vault.pairs, c.source, 0);
    if s.paused then Err(EnforcedPause)
    else if c.amount == 0 then Err(ZeroAmount)
    else if dest == 0 then Err(UnsupportedPair)
    else if !c.pullOk then Err(TokenTransfer)
    else Locked(s, ToAddress(c.source), Request(s.reg.committeeId, dest, c.amount, c.receiver, s.vault.requestNonce))
  }

  function ApplySendNative(s: State, c: Call): Result<State, Error>
    requires c.SendNative?
  {
    var dest := Get(s.vault.pairs, FromAddress(s.vault.weth), 0);
    if s.paused then Err(EnforcedPause)
    else if c.value == 0 then Err(ZeroAmount)
    else if dest == 0 then Err(UnsupportedPair)
    else if !c.wrapOk then Err(WrappingEth)
    else Locked(s, s.vault.weth, Request(s.reg.committeeId, dest, c.value, c.receiver, s.vault.requestNonce))
  }

  /** Locked tokens go out: unwrapping must succeed, a failed delivery is only logged. */
  function Released(v: Vault, c: Call): Result<(Vault, bool), Error>
    requires c.Receive?
  {
    var (token, amount) := (ToAddress(c.request.token), c.request.amount);
    var rest := if Held(v, token) >= amount then v.escrow[token := Held(v, token) - amount] else v.escrow;
    if token == v.weth then
      if !c.unwrapOk || Held(v, token) < amount then Err(UnwrappingEth)
      else Ok((v.(escrow := rest, ether := if c.deliverOk then v.ether else v.ether + amount), c.deliverOk))
    else if c.deliverOk && Held(v, token) >= amount then Ok((v.(escrow := rest), true))
    else Ok((v, false))
  }

  function ApplyReceive(s: State, caller: Address, c: Call): Result<State, Error>
    requires c.Receive?
  {
    var (r, v) := (c.request, s.votes);
    var h := EthDigest(r);
    if s.paused then Err(EnforcedPause)
    else if !IsInCommittee(s.reg, r.committee, caller) then Err(NotInCommittee)
    else if c.digest in v.processed || (h, caller) in v.signatures then Ok(s)
    else if c.digest != h then Err(DataHashMismatch)
    else
      var count := (Get(v.pending, h, 0) as nat) + 1;
      var signed := v.signatures + {(h, caller)};
      if count >= U256_LIMIT then Err(Panic)
      else if count < Get(s.reg.thresholds, r.committee, 0) then
        Ok(s.(votes := v.(signatures := signed, pending := v.pending[h := count])))
      else match Released(s.vault, c)
        case Err(e) => Err(e)
        case Ok(out) =>
          Ok(s.(vault := out.0,
                votes := Ballots(v.pending - {h}, signed, v.processed + {h}, v.releases + [Release(h, r, out.1)])))
  }

  ghost function ApplySetCommittee(s: State, caller: Address, c: Call): Result<State, Error>
    requires c.SetCommittee?
  {
    if caller != s.owner then Err(NotOwner)
    else if !s.paused then Err(ExpectedPause)
    else if s.reg.committeeId + 1 >= U256_LIMIT then Err(Panic)
    else match Seated(s.reg, s.reg.committeeId + 1, c.members, c.threshold)
      case Err(e) => Err(e)
      case Ok(g) => Ok(s.(reg := g))
  }

  /** Everything else the owner may do, and plain token transfers to the contract. */
  function ApplyVault(s: State, caller: Address, c: Call): Result<State, Error>
    requires c.AddPair? || c.RemovePair? || c.RecoverERC20? || c.RecoverNative? || c.Donate? || c.ForceEther?
  {
    var v := s.vault;
    if c.Donate? then
      Ok(s.(vault := v.(escrow := v.escrow[c.token := Held(v, c.token) + c.amount],
                        donated := v.donated[c.token := Get(v.donated, c.token, 0) + c.amount])))
    else if c.ForceEther? then
      Ok(s.(vault := v.(ether := v.ether + c.amount, forcedEther := v.forcedEther + c.amount)))
    else if caller != s.owner then Err(NotOwner)
    else match c
      case AddPair(from, to) =>
        if !s.paused then Err(ExpectedPause) else Ok(s.(vault := v.(pairs := v.pairs[from := to])))
      case RemovePair(from) =>
        if !s.paused then Err(ExpectedPause) else Ok(s.(vault := v.(pairs := v.pairs - {from})))
      case RecoverERC20(token, amount, transferOk) =>
        if !transferOk || Held(v, token) < amount then Err(TokenTransfer)
        else Ok(s.(vault := v.(escrow := v.escrow[token := Held(v, token) - amount],
                               recovered := v.recovered[token := Get(v.recovered, token, 0) + amount])))
      case RecoverNative(amount, transferOk) =>
        if !transferOk || v.ether < amount then Err(EthTransfer)
        else Ok(s.(vault := v.(ether := v.ether - amount, recoveredEther := v.recoveredEther + amount)))
  }

  ghost function Apply(s: State, caller: Address, c: Call): Result<State, Error> {
    match c
    case Send(_, _, _, _) => ApplySend(s, c)
    case SendNative(_, _, _) => ApplySendNative(s, c)
    case Receive(_, _, _, _) => ApplyReceive(s, caller, c)
    case SetCommittee(_, _) => ApplySetCommittee(s, caller, c)
    case Pause =>
      if caller != s.owner then Err(NotOwner) else if s.paused then Err(EnforcedPause) else Ok(s.(paused := true))
    case Unpause =>
      if caller != s.owner then Err(NotOwner) else if !s.paused then Err(ExpectedPause) else Ok(s.(paused := false))
    case _ => ApplyVault(s, caller, c)
  }

  /** A reverted transaction leaves the chain as it was. */
  ghost function Next(s: State, caller: Address, c: Call): State {
    match Apply(s, caller, c)
    case Ok(s') => s'
    case Err(_) => s
  }

  ghost function Run(s: State, calls: seq<(Address, Call)>): State
    decreases |calls|
  {
    if calls == [] then s else Run(Next(s, calls[0].0, calls[0].1), calls[1..])
  }

  ghost predicate Deployed(s: State) {
    exists members, threshold, owner, weth, escrow :: Init(members, threshold, owner, weth, escrow) == Ok(s)
  }

  /** Which part of the state a call can change. */
  lemma Frame(s: State, caller: Address, c: Call)
    ensures !c.SetCommittee? ==> Next(s, caller, c).reg == s.reg
    ensures !c.Receive? ==> Next(s, caller, c).votes == s.votes
    ensures c.SetCommittee? || c.Pause? || c.Unpause? ==> Next(s, caller, c).vault == s.vault
    ensures !c.Pause? && !c.Unpause? ==> Next(s, caller, c).paused == s.paused
  {
  }
}
