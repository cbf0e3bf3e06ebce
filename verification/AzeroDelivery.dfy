/** The other direction: a guardian's Ethereum listener and the ink! contract together. */
module AzeroDelivery {
  import opened Prelude
  import opened Requests
  import R = EthRelayer
  import Az = AzeroSpec
  import AzVotes = AzeroVotes

  datatype State = State(relayer: R.State, az: Az.State)

  /** The relayer moves on its own; its vote for the current event lands, after which it either sees the
      event through or fails; or anybody else calls the contract. */
  datatype Step =
    | Relay(step: R.Step)
    | Vote(mintOk: bool, pocketOk: bool, confirmed: bool)
    | Call(caller: Az.Account, call: Az.Call)

  /** The request the listener is at, unless its integers are wider than u128, which stops the relayer. */
  function Current(cfg: R.Config, s: R.State): Option<AzRequest> {
    if s.listener.Some? && R.AtEvent(cfg, s.listener.value) then
      var r := cfg.chain(s.listener.value.block)[s.listener.value.event];
      if FitsU128(r) then Some(r) else None
    else None
  }

  function Ballot(r: AzRequest, step: Step): Az.Call
    requires step.Vote?
  {
    Az.Receive(AzDigest(r), r, step.mintOk, step.pocketOk)
  }

  function Report(step: Step): R.Step
    requires step.Vote?
  {
    if step.confirmed then R.EventDone else R.EventFailed(true)
  }

  /** An event counts as handled only through a vote that the contract accepted. */
  ghost predicate Enabled(cfg: R.Config, guardian: Az.Account, s: State, step: Step) {
    match step
    case Relay(r) => !r.EventDone? && !(r.EventFailed? && r.landed)
    case Vote(_, _, _) =>
      && Current(cfg, s.relayer).Some?
      && Az.Apply(s.az, guardian, Ballot(Current(cfg, s.relayer).value, step)).Ok?
    case Call(_, _) => true
  }

  ghost function Next(cfg: R.Config, guardian: Az.Account, s: State, step: Step): State {
    if !Enabled(cfg, guardian, s, step) then s
    else match step
      case Relay(r) => s.(relayer := R.Next(cfg, s.relayer, r))
      case Vote(_, _, _) =>
        State(R.Next(cfg, s.relayer, Report(step)),
              Az.Next(s.az, guardian, Ballot(Current(cfg, s.relayer).value, step)))
      case Call(caller, c) => s.(az := Az.Next(s.az, caller, c))
  }

  ghost function Run(cfg: R.Config, guardian: Az.Account, s: State, steps: seq<Step>): State
    decreases |steps|
  {
    if steps == [] then s else Run(cfg, guardian, Next(cfg, guardian, s, steps[0]), steps[1..])
  }

  /** What counts as handled has been counted by the contract. */
  ghost predicate HandledIsRecorded(cfg: R.Config, guardian: Az.Account, handled: set<(nat, nat)>, az: Az.State) {
    forall b, i :: (b, i) in handled ==>
      i < |cfg.chain(b)| && FitsU128(cfg.chain(b)[i]) && AzVotes.Recorded(az, guardian, cfg.chain(b)[i])
  }

  ghost predicate Inv(cfg: R.Config, guardian: Az.Account, s: State) {
    R.Inv(cfg, s.relayer) && HandledIsRecorded(cfg, guardian, s.relayer.handled, s.az)
  }

  lemma RecordedKept(cfg: R.Config, guardian: Az.Account, handled: set<(nat, nat)>, az: Az.State,
                     caller: Az.Account, c: Az.Call)
    requires HandledIsRecorded(cfg, guardian, handled, az)
    ensures HandledIsRecorded(cfg, guardian, handled, Az.Next(az, caller, c))
  {
    forall b, i | (b, i) in handled ensures AzVotes.Recorded(Az.Next(az, caller, c), guardian, cfg.chain(b)[i]) {
      AzVotes.RecordedStays(az, guardian, cfg.chain(b)[i], caller, c);
    }
  }

  lemma RelayHandlesNothing(cfg: R.Config, s: R.State, step: R.Step)
    requires !step.EventDone? && !(step.EventFailed? && step.landed)
    ensures R.Next(cfg, s, step).handled == s.handled
  {
  }

  lemma StepKeepsInv(cfg: R.Config, guardian: Az.Account, s: State, step: Step)
    requires Inv(cfg, guardian, s)
    ensures Inv(cfg, guardian, Next(cfg, guardian, s, step))
  {
    if Enabled(cfg, guardian, s, step) {
      match step
      case Call(caller, c) => RecordedKept(cfg, guardian, s.relayer.handled, s.az, caller, c);
      case Relay(r) =>
        R.StepKeepsInv(cfg, s.relayer, r);
        RelayHandlesNothing(cfg, s.relayer, r);
      case Vote(_, _, _) =>
        var (l, c) := (s.relayer.listener.value, Ballot(Current(cfg, s.relayer).value, step));
        R.StepKeepsInv(cfg, s.relayer, Report(step));
        RecordedKept(cfg, guardian, s.relayer.handled, s.az, guardian, c);
        AzVotes.VoteIsRecorded(s.az, guardian, c);
        assert Next(cfg, guardian, s, step).relayer.handled == s.relayer.handled + {(l.block, l.event)};
    }
  }

  lemma {:induction false} RunKeepsInv(cfg: R.Config, guardian: Az.Account, s: State, steps: seq<Step>)
    requires Inv(cfg, guardian, s)
    ensures Inv(cfg, guardian, Run(cfg, guardian, s, steps))
    decreases |steps|
  {
    if steps != [] {
      StepKeepsInv(cfg, guardian, s, steps[0]);
      RunKeepsInv(cfg, guardian, Next(cfg, guardian, s, steps[0]), steps[1..]);
    }
  }

  /** End to end: whenever the stored checkpoint is k, the ink! contract has counted this guardian's vote
      for every transfer in the blocks from the start block to k, or has already minted it, whatever
      failures, crashes, rotations, halts and other votes happened on the way. */
  lemma CheckpointedVotesAreRecorded(cfg: R.Config, guardian: Az.Account, s0: State, steps: seq<Step>, b: nat, i: nat)
    requires R.Fresh(cfg, s0.relayer)
    requires var s := Run(cfg, guardian, s0, steps).relayer;
             s.checkpoint.Some? && cfg.start <= b <= s.checkpoint.value && i < |cfg.chain(b)|
    ensures FitsU128(cfg.chain(b)[i])
    ensures AzVotes.Recorded(Run(cfg, guardian, s0, steps).az, guardian, cfg.chain(b)[i])
  {
    RunKeepsInv(cfg, guardian, s0, steps);
    assert (b, i) in Run(cfg, guardian, s0, steps).relayer.handled;
  }

  // ----- exactly-once effect

  /** The calls that reach the contract, in order: re-deliveries after restarts included. */
  ghost function CallsOf(cfg: R.Config, guardian: Az.Account, s: State, steps: seq<Step>): seq<(Az.Account, Az.Call)>
    decreases |steps|
  {
    if steps == [] then [] else
      var rest := CallsOf(cfg, guardian, Next(cfg, guardian, s, steps[0]), steps[1..]);
      if !Enabled(cfg, guardian, s, steps[0]) then rest
      else match steps[0]
        case Relay(_) => rest
        case Vote(_, _, _) => [(guardian, Ballot(Current(cfg, s.relayer).value, steps[0]))] + rest
        case Call(caller, c) => [(caller, c)] + rest
  }

  lemma {:induction false} ContractSees(cfg: R.Config, guardian: Az.Account, s: State, steps: seq<Step>)
    ensures Run(cfg, guardian, s, steps).az == Az.Run(s.az, CallsOf(cfg, guardian, s, steps))
    decreases |steps|
  {
    if steps != [] {
      var s' := Next(cfg, guardian, s, steps[0]);
      ContractSees(cfg, guardian, s', steps[1..]);
      var (calls, rest) := (CallsOf(cfg, guardian, s, steps), CallsOf(cfg, guardian, s', steps[1..]));
      if calls != rest {
        assert calls[1..] == rest;
      }
    }
  }

  /** Whatever the relayer delivers again after failures and restarts, the contract ends in the state
      it would have reached with every repeated vote left out. */
  lemma ExactlyOnceEffect(cfg: R.Config, guardian: Az.Account, s0: State, steps: seq<Step>)
    ensures var calls := CallsOf(cfg, guardian, s0, steps);
            var once := AzVotes.WithoutRedeliveries(s0.az, {}, calls);
            && Run(cfg, guardian, s0, steps).az == Az.Run(s0.az, once)
            && AzVotes.WithoutRedeliveries(s0.az, {}, once) == once
  {
    ContractSees(cfg, guardian, s0, steps);
    var calls := CallsOf(cfg, guardian, s0, steps);
    AzVotes.RedeliveryIsInvisible(s0.az, {}, calls);
    AzVotes.NoRedeliveriesLeft(s0.az, {}, calls);
  }
}
