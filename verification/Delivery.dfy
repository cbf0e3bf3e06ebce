/** A guardian's relayer and the Ethereum contract together: the relayer delivers votes at least once,
    the contract counts them once. */
module Delivery {
  import opened Bytes
  import opened Requests
  import R = Relayer
  import Eth = EthereumSpec
  import EthVotes = EthereumVotes

  datatype State = State(relayer: R.State, eth: Eth.State)

  /** The relayer moves on its own; its vote for an event lands, after which it either sees the event
      through or fails; or anybody else calls the contract. */
  datatype Step =
    | Relay(step: R.Step)
    | Vote(block: nat, event: nat, unwrapOk: bool, deliverOk: bool, confirmed: bool)
    | Call(caller: Address, call: Eth.Call)

  function Ballot(cfg: R.Config, step: Step): Eth.Call
    requires step.Vote? && step.event < |cfg.chain(step.block)|
  {
    var r := cfg.chain(step.block)[step.event];
    Eth.Receive(EthDigest(r), r, step.unwrapOk, step.deliverOk)
  }

  function Report(step: Step): R.Step
    requires step.Vote?
  {
    if step.confirmed then R.EventDone(step.block, step.event) else R.EventFailed(step.block, step.event, true)
  }

  /** An event counts as handled only through a vote whose transaction did not revert. */
  ghost predicate Enabled(cfg: R.Config, guardian: Address, s: State, step: Step) {
    match step
    case Relay(r) => !r.EventDone? && !(r.EventFailed? && r.landed)
    case Vote(b, i, _, _, _) =>
      R.Enabled(s.relayer, Report(step)) && i < |cfg.chain(b)| && Eth.Apply(s.eth, guardian, Ballot(cfg, step)).Ok?
    case Call(_, _) => true
  }

  ghost function Next(cfg: R.Config, guardian: Address, s: State, step: Step): State {
    if !Enabled(cfg, guardian, s, step) then s
    else match step
      case Relay(r) => s.(relayer := R.Next(cfg, s.relayer, r))
      case Vote(_, _, _, _, _) =>
        State(R.Next(cfg, s.relayer, Report(step)), Eth.Next(s.eth, guardian, Ballot(cfg, step)))
      case Call(caller, c) => s.(eth := Eth.Next(s.eth, caller, c))
  }

  ghost function Run(cfg: R.Config, guardian: Address, s: State, steps: seq<Step>): State
    decreases |steps|
  {
    if steps == [] then s else Run(cfg, guardian, Next(cfg, guardian, s, steps[0]), steps[1..])
  }

  ghost predicate HandledIsRecorded(cfg: R.Config, guardian: Address, s: State) {
    forall b, i :: (b, i) in s.relayer.handled ==>
      i < |cfg.chain(b)| && EthVotes.Recorded(s.eth, guardian, cfg.chain(b)[i])
  }

  lemma RelayHandlesNothing(cfg: R.Config, s: R.State, step: R.Step)
    requires !step.EventDone? && !(step.EventFailed? && step.landed)
    ensures R.Next(cfg, s, step).handled == s.handled
  {
  }

  lemma StepKeepsRecorded(cfg: R.Config, guardian: Address, s: State, step: Step)
    requires HandledIsRecorded(cfg, guardian, s)
    ensures HandledIsRecorded(cfg, guardian, Next(cfg, guardian, s, step))
  {
    var s' := Next(cfg, guardian, s, step);
    if Enabled(cfg, guardian, s, step) {
      match step
      case Relay(r) => RelayHandlesNothing(cfg, s.relayer, r);
      case Vote(b, i, _, _, _) =>
        var c := Ballot(cfg, step);
        EthVotes.VoteIsRecorded(s.eth, guardian, c);
        forall d, k | (d, k) in s.relayer.handled ensures EthVotes.Recorded(s'.eth, guardian, cfg.chain(d)[k]) {
          EthVotes.RecordedStays(s.eth, guardian, cfg.chain(d)[k], guardian, c);
        }
        assert s'.relayer.handled == s.relayer.handled + {(b, i)};
      case Call(caller, c) =>
        forall d, k | (d, k) in s.relayer.handled ensures EthVotes.Recorded(s'.eth, guardian, cfg.chain(d)[k]) {
          EthVotes.RecordedStays(s.eth, guardian, cfg.chain(d)[k], caller, c);
        }
    }
  }

  lemma StepKeepsRelayerInv(cfg: R.Config, guardian: Address, s: State, step: Step)
    requires R.Inv(cfg, s.relayer)
    ensures R.Inv(cfg, Next(cfg, guardian, s, step).relayer)
  {
    match step
    case Relay(r) => R.StepKeepsInv(cfg, s.relayer, r);
    case Vote(_, _, _, _, _) => R.StepKeepsInv(cfg, s.relayer, Report(step));
    case Call(_, _) =>
  }

  lemma {:induction false} RunKeeps(cfg: R.Config, guardian: Address, s: State, steps: seq<Step>)
    requires R.Inv(cfg, s.relayer) && HandledIsRecorded(cfg, guardian, s)
    ensures var s' := Run(cfg, guardian, s, steps); R.Inv(cfg, s'.relayer) && HandledIsRecorded(cfg, guardian, s')
    decreases |steps|
  {
    if steps != [] {
      StepKeepsRecorded(cfg, guardian, s, steps[0]);
      StepKeepsRelayerInv(cfg, guardian, s, steps[0]);
      RunKeeps(cfg, guardian, Next(cfg, guardian, s, steps[0]), steps[1..]);
    }
  }

  /** End to end: whenever the stored checkpoint is k, the Ethereum contract has counted this
      guardian's vote for every transfer in the blocks from the start block to k, or has already
      released it, whatever crashes, rotations, pauses and other votes happened on the way. */
  lemma CheckpointedVotesAreRecorded(cfg: R.Config, guardian: Address, s0: State, steps: seq<Step>, b: nat, i: nat)
    requires R.Fresh(cfg, s0.relayer)
    requires var s := Run(cfg, guardian, s0, steps);
             s.relayer.checkpoint.Some? && cfg.start <= b <= s.relayer.checkpoint.value && i < |cfg.chain(b)|
    ensures EthVotes.Recorded(Run(cfg, guardian, s0, steps).eth, guardian, cfg.chain(b)[i])
  {
    RunKeeps(cfg, guardian, s0, steps);
    var s := Run(cfg, guardian, s0, steps);
    assert R.BlockHandled(cfg, s.relayer.handled, b);
    assert (b, i) in s.relayer.handled;
  }

  // ----- exactly-once effect

  /** The calls that reach the contract, in order: re-deliveries after restarts included. */
  ghost function CallsOf(cfg: R.Config, guardian: Address, s: State, steps: seq<Step>): seq<(Address, Eth.Call)>
    decreases |steps|
  {
    if steps == [] then [] else
      var rest := CallsOf(cfg, guardian, Next(cfg, guardian, s, steps[0]), steps[1..]);
      if !Enabled(cfg, guardian, s, steps[0]) then rest
      else match steps[0]
        case Relay(_) => rest
        case Vote(_, _, _, _, _) => [(guardian, Ballot(cfg, steps[0]))] + rest
        case Call(caller, c) => [(caller, c)] + rest
  }

  lemma {:induction false} ContractSees(cfg: R.Config, guardian: Address, s: State, steps: seq<Step>)
    ensures Run(cfg, guardian, s, steps).eth == Eth.Run(s.eth, CallsOf(cfg, guardian, s, steps))
    decreases |steps|
  {
    if steps != [] {
      var s' := Next(cfg, guardian, s, steps[0]);
      ContractSees(cfg, guardian, s', steps[1..]);
      var (calls, rest) := (CallsOf(cfg, guardian, s, steps), CallsOf(cfg, guardian, s', steps[1..]));
      if calls != rest {
        assert calls[1..] == rest;
      }
    }
  }

  /** Whatever the relayer delivers again after failures and restarts, the contract ends in the state
      it would have reached with every repeated vote left out. */
  lemma ExactlyOnceEffect(cfg: R.Config, guardian: Address, s0: State, steps: seq<Step>)
    ensures var calls := CallsOf(cfg, guardian, s0, steps);
            var once := EthVotes.WithoutRedeliveries(s0.eth, {}, calls);
            && Run(cfg, guardian, s0, steps).eth == Eth.Run(s0.eth, once)
            && EthVotes.WithoutRedeliveries(s0.eth, {}, once) == once
  {
    ContractSees(cfg, guardian, s0, steps);
    var calls := CallsOf(cfg, guardian, s0, steps);
    EthVotes.RedeliveryIsInvisible(s0.eth, {}, calls);
    EthVotes.NoRedeliveriesLeft(s0.eth, {}, calls);
  }
}
