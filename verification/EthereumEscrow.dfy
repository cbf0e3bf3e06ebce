/** Where the tokens of the Solidity contract come from and go to, over whole runs. */
module EthereumEscrow {
  import opened Prelude
  import opened Bytes
  import opened Requests
  import opened EthereumSpec
  import opened EthereumVotes

  function LockWeight(token: Address): Lock -> nat {
    (x: Lock) => if x.token == token then x.request.amount else 0
  }

  /** Tokens leave with a delivered release; wrapped ether is unwrapped in any case. */
  function ReleaseWeight(token: Address, weth: Address): Release -> nat {
    (x: Release) =>
      if ToAddress(x.request.token) == token && (x.delivered || token == weth) then x.request.amount else 0
  }

  /** Unwrapped ether that the receiver did not take. */
  function StrandedWeight(weth: Address): Release -> nat {
    (x: Release) => if ToAddress(x.request.token) == weth && !x.delivered then x.request.amount else 0
  }

  ghost predicate EscrowOk(s: State, initial: nat, token: Address) {
    Held(s.vault, token) + SumBy(s.votes.releases, ReleaseWeight(token, s.vault.weth))
      + Get(s.vault.recovered, token, 0)
      == initial + SumBy(s.vault.sent, LockWeight(token)) + Get(s.vault.donated, token, 0)
  }

  ghost predicate EtherOk(s: State) {
    s.vault.ether + s.vault.recoveredEther
      == SumBy(s.votes.releases, StrandedWeight(s.vault.weth)) + s.vault.forcedEther
  }

  lemma LockedKeeps(s: State, token: Address, r: Request, initial: nat, t: Address)
    requires EscrowOk(s, initial, t) && EtherOk(s) && Locked(s, token, r).Ok?
    ensures EscrowOk(Locked(s, token, r).value, initial, t) && EtherOk(Locked(s, token, r).value)
  {
    SumBySnoc(s.vault.sent, Lock(token, r), LockWeight(t));
  }

  function ReleaseOf(v: Vault, c: Call): Release
    requires c.Receive? && Released(v, c).Ok?
  {
    Release(EthDigest(c.request), c.request, Released(v, c).value.1)
  }

  /** A vote either leaves vault and releases alone or adds one release and moves its tokens. */
  lemma ReceiveMoves(s: State, caller: Address, c: Call)
    requires c.Receive?
    ensures var s' := Next(s, caller, c);
            || (s'.vault == s.vault && s'.votes.releases == s.votes.releases && s'.votes.processed == s.votes.processed)
            || (Released(s.vault, c).Ok? && s'.vault == Released(s.vault, c).value.0
                && s'.votes.releases == s.votes.releases + [ReleaseOf(s.vault, c)])
  {
  }

  lemma ReleaseKeeps(s: State, caller: Address, c: Call, initial: nat, t: Address)
    requires EscrowOk(s, initial, t) && EtherOk(s) && c.Receive?
    ensures EscrowOk(Next(s, caller, c), initial, t) && EtherOk(Next(s, caller, c))
  {
    ReceiveMoves(s, caller, c);
    if Released(s.vault, c).Ok? {
      var x := ReleaseOf(s.vault, c);
      SumBySnoc(s.votes.releases, x, ReleaseWeight(t, s.vault.weth));
      SumBySnoc(s.votes.releases, x, StrandedWeight(s.vault.weth));
    }
  }

  /** Every other call moves tokens and ether in step with donations, recoveries and forced ether. */
  lemma OthersMove(s: State, caller: Address, c: Call, t: Address)
    requires !c.Receive? && !c.Send? && !c.SendNative?
    ensures var (v, v') := (s.vault, Next(s, caller, c).vault);
            && v'.sent == v.sent && v'.weth == v.weth
            && Held(v', t) + Get(v'.recovered, t, 0) + Get(v.donated, t, 0)
                 == Held(v, t) + Get(v.recovered, t, 0) + Get(v'.donated, t, 0)
            && v'.ether + v'.recoveredEther + v.forcedEther == v.ether + v.recoveredEther + v'.forcedEther
  {
    match c
    case SetCommittee(_, _) => Frame(s, caller, c);
    case Pause => Frame(s, caller, c);
    case Unpause => Frame(s, caller, c);
    case _ =>
  }

  lemma OthersKeep(s: State, caller: Address, c: Call, initial: nat, t: Address)
    requires EscrowOk(s, initial, t) && EtherOk(s) && !c.Receive? && !c.Send? && !c.SendNative?
    ensures EscrowOk(Next(s, caller, c), initial, t) && EtherOk(Next(s, caller, c))
  {
    Frame(s, caller, c);
    OthersMove(s, caller, c, t);
  }

  lemma StepKeeps(s: State, caller: Address, c: Call, initial: nat, t: Address)
    requires EscrowOk(s, initial, t) && EtherOk(s)
    ensures EscrowOk(Next(s, caller, c), initial, t) && EtherOk(Next(s, caller, c))
  {
    var v := s.vault;
    match c
    case Receive(_, _, _, _) => ReleaseKeeps(s, caller, c, initial, t);
    case Send(source, amount, receiver, _) =>
      if ApplySend(s, c).Ok? {
        LockedKeeps(s, ToAddress(source),
                    Request(s.reg.committeeId, v.pairs[source], amount, receiver, v.requestNonce), initial, t);
      }
    case SendNative(receiver, value, _) =>
      if ApplySendNative(s, c).Ok? {
        LockedKeeps(s, v.weth,
                    Request(s.reg.committeeId, v.pairs[FromAddress(v.weth)], value, receiver, v.requestNonce),
                    initial, t);
      }
    case _ => OthersKeep(s, caller, c, initial, t);
  }

  lemma {:induction false} RunKeeps(s: State, calls: seq<(Address, Call)>, initial: nat, t: Address)
    requires EscrowOk(s, initial, t) && EtherOk(s)
    ensures EscrowOk(Run(s, calls), initial, t) && EtherOk(Run(s, calls))
    decreases |calls|
  {
    if calls != [] {
      StepKeeps(s, calls[0].0, calls[0].1, initial, t);
      RunKeeps(Next(s, calls[0].0, calls[0].1), calls[1..], initial, t);
    }
  }

  /** Exact escrow ledger: what the contract holds of a token is what it started with plus everything
      locked by requests and donated, minus everything released and recovered; and the ether it holds
      is exactly the unwrapped ether that receivers did not take, and ether forced on it, that nobody
      recovered. */
  lemma EscrowLedger(s0: State, calls: seq<(Address, Call)>, token: Address)
    requires Deployed(s0)
    ensures var s := Run(s0, calls);
            && Held(s.vault, token) + SumBy(s.votes.releases, ReleaseWeight(token, s.vault.weth))
               + Get(s.vault.recovered, token, 0)
                 == Held(s0.vault, token) + SumBy(s.vault.sent, LockWeight(token)) + Get(s.vault.donated, token, 0)
            && s.vault.ether + s.vault.recoveredEther
                 == SumBy(s.votes.releases, StrandedWeight(s.vault.weth)) + s.vault.forcedEther
  {
    DeployedWellFormed(s0);
    RunKeeps(s0, calls, Held(s0.vault, token), token);
  }

  /** While paused, and as long as the owner does not act, votes, releases and requests stand still. */
  lemma {:induction false} PauseFreezes(s: State, calls: seq<(Address, Call)>)
    requires s.paused && forall i :: 0 <= i < |calls| ==> calls[i].0 != s.owner
    ensures var s' := Run(s, calls);
            s'.paused && s'.reg == s.reg && s'.votes == s.votes && s'.vault.sent == s.vault.sent
              && s'.vault.pairs == s.vault.pairs
    decreases |calls|
  {
    if calls != [] {
      assert calls[0].0 != s.owner;
      OutsiderWhilePaused(s, calls[0].0, calls[0].1);
      PauseFreezes(Next(s, calls[0].0, calls[0].1), calls[1..]);
    }
  }

  lemma OutsiderWhilePaused(s: State, caller: Address, c: Call)
    requires s.paused && caller != s.owner
    ensures var s' := Next(s, caller, c);
            || s' == s
            || (c.Donate? && s' == s.(vault := s.vault.(escrow := s'.vault.escrow, donated := s'.vault.donated)))
            || (c.ForceEther?
                && s' == s.(vault := s.vault.(ether := s'.vault.ether, forcedEther := s'.vault.forcedEther)))
  {
  }
}
