/** The whole bridge: both contracts, both chains growing block by block, and the relayers of the honest
    guardians. That honest guardians only vote for requests the other chain has sent is proved here
    from what their relayers do, and the results about the two contracts follow. */
module Network {
  import opened Prelude
  import opened Bytes
  import opened Requests
  import B = Bridge
  import Az = AzeroSpec
  import Eth = EthereumSpec
  import R = Relayer
  import E = EthRelayer
  import D = Delivery
  import AD = AzeroDelivery

  /** The world of the two contracts, and the transfer requests of every block each chain will finalize. */
  datatype Config = Config(world: B.World, azChain: R.Config, ethChain: E.Config)

  /** The finalized heights, and the relayers of honest guardians by the account they vote with. */
  datatype State = State(
    bridge: B.State, azHeight: nat, ethHeight: nat, toEth: map<Address, R.State>, toAz: map<Az.Account, E.State>)

  /** A chain finalizes a block; somebody calls a contract; or a relayer moves or votes. */
  datatype Step =
    | AzBlock
    | EthBlock
    | Outside(step: B.Step)
    | RelayToEth(ethGuardian: Address, ethStep: D.Step)
    | RelayToAz(azGuardian: Az.Account, azStep: AD.Step)

  ghost predicate SentOnAzero(t: Az.Tokens, r: Request) {
    exists k :: 0 <= k < |t.sent| && t.sent[k].request == r
  }

  ghost predicate SentOnEthereum(v: Eth.Vault, r: Request) {
    exists k :: 0 <= k < |v.sent| && v.sent[k].request == r
  }

  ghost predicate AzBlockIsReal(cfg: Config, t: Az.Tokens, b: nat) {
    forall i :: 0 <= i < |cfg.azChain.chain(b)| ==> SentOnAzero(t, cfg.azChain.chain(b)[i])
  }

  ghost predicate EthBlockIsReal(cfg: Config, v: Eth.Vault, b: nat) {
    forall i :: 0 <= i < |cfg.ethChain.chain(b)| ==> SentOnEthereum(v, cfg.ethChain.chain(b)[i])
  }

  /** A finalized block carries only requests its contract emitted; honest guardians leave voting to
      their relayers; and a relayer asks for no blocks that are not finalized. */
  ghost predicate Enabled(cfg: Config, s: State, step: Step) {
    match step
    case AzBlock => AzBlockIsReal(cfg, s.bridge.az.tokens, s.azHeight + 1)
    case EthBlock => EthBlockIsReal(cfg, s.bridge.eth.vault, s.ethHeight + 1)
    case Outside(b) => B.Governed(cfg.world, s.bridge, b) && !B.HonestVote(cfg.world, s.bridge, b)
    case RelayToEth(g, d) =>
      g in s.toEth && !d.Call? && (d.Relay? && d.step.BeginRange? ==> d.step.to <= s.azHeight)
    case RelayToAz(g, d) =>
      g in s.toAz && !d.Call? && (d.Relay? && d.step.BeginRange? ==> d.step.upTo <= s.ethHeight)
  }

  ghost function EthSide(cfg: Config, s: State, g: Address, d: D.Step): D.State
    requires g in s.toEth
  {
    D.Next(cfg.azChain, g, D.State(s.toEth[g], s.bridge.eth), d)
  }

  ghost function AzSide(cfg: Config, s: State, g: Az.Account, d: AD.Step): AD.State
    requires g in s.toAz
  {
    AD.Next(cfg.ethChain, g, AD.State(s.toAz[g], s.bridge.az), d)
  }

  ghost function Next(cfg: Config, s: State, step: Step): State {
    if !Enabled(cfg, s, step) then s
    else match step
      case AzBlock => s.(azHeight := s.azHeight + 1)
      case EthBlock => s.(ethHeight := s.ethHeight + 1)
      case Outside(b) => s.(bridge := B.Next(s.bridge, b))
      case RelayToEth(g, d) =>
        var side := EthSide(cfg, s, g, d);
        s.(bridge := s.bridge.(eth := side.eth), toEth := s.toEth[g := side.relayer])
      case RelayToAz(g, d) =>
        var side := AzSide(cfg, s, g, d);
        s.(bridge := s.bridge.(az := side.az), toAz := s.toAz[g := side.relayer])
  }

  ghost function Run(cfg: Config, s: State, steps: seq<Step>): State
    decreases |steps|
  {
    if steps == [] then s else Run(cfg, Next(cfg, s, steps[0]), steps[1..])
  }

  /** In every state of the run, faulty guardians are fewer than the thresholds in use. */
  ghost predicate TrustedRun(cfg: Config, s: State, steps: seq<Step>)
    decreases |steps|
  {
    B.Trusted(cfg.world, s.bridge) && (steps != [] ==> TrustedRun(cfg, Next(cfg, s, steps[0]), steps[1..]))
  }

  // ----- the invariant

  /** An Aleph Zero listener has only scheduled finalized blocks and waits only for their events. */
  ghost predicate Behind(cfg: R.Config, r: R.State, height: nat) {
    r.listener.Some? ==>
      var l := r.listener.value;
      && (l.stage.Adding? ==> l.stage.at <= l.stage.upTo <= height)
      && (l.stage.Spawning? ==> forall b :: b in l.stage.todo ==> b <= height)
      && (forall b :: b in l.tasks ==> b <= height && forall i :: i in l.tasks[b] ==> i < |cfg.chain(b)|)
  }

  ghost predicate EthBehind(r: E.State, height: nat) {
    r.listener.Some? && r.listener.value.Working? ==> r.listener.value.block <= r.listener.value.last <= height
  }

  ghost predicate Inv(cfg: Config, s: State) {
    && (forall b :: 0 <= b <= s.azHeight ==> AzBlockIsReal(cfg, s.bridge.az.tokens, b))
    && (forall b :: 0 <= b <= s.ethHeight ==> EthBlockIsReal(cfg, s.bridge.eth.vault, b))
    && (forall g :: g in s.toEth ==> Behind(cfg.azChain, s.toEth[g], s.azHeight))
    && (forall g :: g in s.toAz ==> EthBehind(s.toAz[g], s.ethHeight))
  }

  lemma RelayStaysBehind(cfg: R.Config, r: R.State, step: R.Step, height: nat)
    requires Behind(cfg, r, height) && (step.BeginRange? ==> step.to <= height)
    ensures Behind(cfg, R.Next(cfg, r, step), height)
  {
  }

  lemma EthRelayStaysBehind(cfg: E.Config, r: E.State, step: E.Step, height: nat)
    requires EthBehind(r, height) && (step.BeginRange? ==> step.upTo <= height)
    ensures EthBehind(E.Next(cfg, r, step), height)
  {
  }

  /** The logs only grow, so blocks stay real. */
  lemma RealStays(cfg: Config, s: State, s': State)
    requires s.bridge.az.tokens.sent <= s'.bridge.az.tokens.sent && s.bridge.eth.vault.sent <= s'.bridge.eth.vault.sent
    ensures forall b :: AzBlockIsReal(cfg, s.bridge.az.tokens, b) ==> AzBlockIsReal(cfg, s'.bridge.az.tokens, b)
    ensures forall b :: EthBlockIsReal(cfg, s.bridge.eth.vault, b) ==> EthBlockIsReal(cfg, s'.bridge.eth.vault, b)
  {
    forall b, i | AzBlockIsReal(cfg, s.bridge.az.tokens, b) && 0 <= i < |cfg.azChain.chain(b)|
      ensures SentOnAzero(s'.bridge.az.tokens, cfg.azChain.chain(b)[i])
    {
      var r := cfg.azChain.chain(b)[i];
      assert SentOnAzero(s.bridge.az.tokens, r);
      var k :| 0 <= k < |s.bridge.az.tokens.sent| && s.bridge.az.tokens.sent[k].request == r;
      assert s'.bridge.az.tokens.sent[k].request == r;
    }
    forall b, i | EthBlockIsReal(cfg, s.bridge.eth.vault, b) && 0 <= i < |cfg.ethChain.chain(b)|
      ensures SentOnEthereum(s'.bridge.eth.vault, cfg.ethChain.chain(b)[i])
    {
      var r := cfg.ethChain.chain(b)[i];
      assert SentOnEthereum(s.bridge.eth.vault, r);
      var k :| 0 <= k < |s.bridge.eth.vault.sent| && s.bridge.eth.vault.sent[k].request == r;
      assert s'.bridge.eth.vault.sent[k].request == r;
    }
  }

  // ----- what reaches the contracts

  /** The call a step makes to a contract, if any. */
  ghost function Effect(cfg: Config, s: State, step: Step): Option<B.Step> {
    if !Enabled(cfg, s, step) then None
    else match step
      case AzBlock => None
      case EthBlock => None
      case Outside(b) => Some(b)
      case RelayToEth(g, d) =>
        if d.Vote? && D.Enabled(cfg.azChain, g, D.State(s.toEth[g], s.bridge.eth), d)
        then Some(B.OnEthereum(g, D.Ballot(cfg.azChain, d))) else None
      case RelayToAz(g, d) =>
        if d.Vote? && AD.Enabled(cfg.ethChain, g, AD.State(s.toAz[g], s.bridge.az), d)
        then Some(B.OnAzero(g, AD.Ballot(AD.Current(cfg.ethChain, s.toAz[g]).value, d))) else None
  }

  lemma EffectIsTheCall(cfg: Config, s: State, step: Step)
    ensures var effect := Effect(cfg, s, step);
            Next(cfg, s, step).bridge == if effect.Some? then B.Next(s.bridge, effect.value) else s.bridge
  {
  }

  /** A relayer's vote is for a request that the other chain has sent. */
  lemma RelayedVoteIsReal(cfg: Config, s: State, step: Step)
    requires Inv(cfg, s) && !step.Outside? && Effect(cfg, s, step).Some?
    ensures B.Allowed(cfg.world, s.bridge, Effect(cfg, s, step).value)
  {
    match step
    case RelayToEth(g, d) =>
      var r := cfg.azChain.chain(d.block)[d.event];
      assert Behind(cfg.azChain, s.toEth[g], s.azHeight) && AzBlockIsReal(cfg, s.bridge.az.tokens, d.block);
      assert SentOnAzero(s.bridge.az.tokens, r);
    case RelayToAz(g, d) =>
      var l := s.toAz[g].listener.value;
      var r := cfg.ethChain.chain(l.block)[l.event];
      assert EthBehind(s.toAz[g], s.ethHeight) && EthBlockIsReal(cfg, s.bridge.eth.vault, l.block);
      assert SentOnEthereum(s.bridge.eth.vault, r);
  }

  lemma EffectIsAllowed(cfg: Config, s: State, step: Step)
    requires Inv(cfg, s) && Effect(cfg, s, step).Some?
    ensures B.Allowed(cfg.world, s.bridge, Effect(cfg, s, step).value)
  {
    if !step.Outside? {
      RelayedVoteIsReal(cfg, s, step);
    }
  }

  lemma RelayersStayBehind(cfg: Config, s: State, step: Step)
    requires Inv(cfg, s)
    ensures var s' := Next(cfg, s, step);
            && (forall g :: g in s'.toEth ==> Behind(cfg.azChain, s'.toEth[g], s'.azHeight))
            && (forall g :: g in s'.toAz ==> EthBehind(s'.toAz[g], s'.ethHeight))
  {
    if Enabled(cfg, s, step) {
      match step
      case RelayToEth(g, d) =>
        RelayStaysBehind(cfg.azChain, s.toEth[g], if d.Relay? then d.step else D.Report(d), s.azHeight);
      case RelayToAz(g, d) =>
        EthRelayStaysBehind(cfg.ethChain, s.toAz[g], if d.Relay? then d.step else AD.Report(d), s.ethHeight);
      case _ =>
    }
  }

  lemma StepKeepsInv(cfg: Config, s: State, step: Step)
    requires Inv(cfg, s)
    ensures Inv(cfg, Next(cfg, s, step))
  {
    var s' := Next(cfg, s, step);
    RelayersStayBehind(cfg, s, step);
    EffectIsTheCall(cfg, s, step);
    if Effect(cfg, s, step).Some? {
      B.LogsGrow(s.bridge, Effect(cfg, s, step).value);
    }
    RealStays(cfg, s, s');
  }

  /** What the contracts see of a run. */
  ghost function BridgeSteps(cfg: Config, s: State, steps: seq<Step>): seq<B.Step>
    decreases |steps|
  {
    if steps == [] then [] else
      var rest := BridgeSteps(cfg, Next(cfg, s, steps[0]), steps[1..]);
      if Effect(cfg, s, steps[0]).Some? then [Effect(cfg, s, steps[0]).value] + rest else rest
  }

  // ----- main results

  /** Honest behaviour, proved: the calls that reach the two contracts in any run of relayers, guardians
      and everybody else are such that honest guardians vote only for requests the other chain sent. */
  lemma {:induction false} RelayersAreHonest(cfg: Config, s: State, steps: seq<Step>)
    requires Inv(cfg, s) && TrustedRun(cfg, s, steps)
    ensures B.AllowedRun(cfg.world, s.bridge, BridgeSteps(cfg, s, steps))
    ensures Run(cfg, s, steps).bridge == B.Run(s.bridge, BridgeSteps(cfg, s, steps))
    decreases |steps|
  {
    if steps != [] {
      var s' := Next(cfg, s, steps[0]);
      StepKeepsInv(cfg, s, steps[0]);
      RelayersAreHonest(cfg, s', steps[1..]);
      EffectIsTheCall(cfg, s, steps[0]);
      if Effect(cfg, s, steps[0]).Some? {
        EffectIsAllowed(cfg, s, steps[0]);
        assert BridgeSteps(cfg, s, steps)[1..] == BridgeSteps(cfg, s', steps[1..]);
      }
    }
  }

  /** Two freshly deployed contracts, chains without transfers so far, and relayers that have not started. */
  ghost predicate Start(cfg: Config, s: State) {
    && B.Start(cfg.world, s.bridge)
    && (forall b :: 0 <= b <= s.azHeight ==> cfg.azChain.chain(b) == [])
    && (forall b :: 0 <= b <= s.ethHeight ==> cfg.ethChain.chain(b) == [])
    && (forall g :: g in s.toEth ==> s.toEth[g].listener.None?)
    && (forall g :: g in s.toAz ==> s.toAz[g].listener.None?)
  }

  /** Collateral and no forgery for the whole bridge, with honest guardians modelled by their relayers
      instead of assumed: nothing is processed that the other chain did not send, and the escrow covers
      what is owed exactly while the owner recovers no more than surplus and windfall. */
  lemma NetworkCollateral(cfg: Config, s0: State, steps: seq<Step>, e: Bytes32, h: Digest)
    requires Start(cfg, s0) && TrustedRun(cfg, s0, steps) && e in cfg.world.pairing
    ensures var (b, a) := (Run(cfg, s0, steps).bridge, cfg.world.pairing[e]);
            && (h in b.az.votes.processed ==> B.EmittedOnEthereum(b.eth.vault, h))
            && (h in b.eth.votes.processed ==> B.EmittedOnAzero(b.az.tokens, h))
            && (Eth.Held(b.eth.vault, e) >= B.Owed(b, e, a)
                <==> Get(b.eth.vault.recovered, e, 0) <= B.Opening(cfg.world, s0.bridge, e) + B.Windfall(b, e, a))
  {
    RelayersAreHonest(cfg, s0, steps);
    B.NoForgery(cfg.world, s0.bridge, BridgeSteps(cfg, s0, steps), h);
    B.CollateralAlways(cfg.world, s0.bridge, BridgeSteps(cfg, s0, steps), e);
  }
}
