/** The Ethereum listener as steps of its main loop: it works through the chain range by range, one event
    after the other; a failure or a crash loses everything but the checkpoint in Redis and what already
    happened on Aleph Zero. */
module EthRelayer {
  import opened Prelude
  import opened Requests

  /** The transfer requests of each finalized Ethereum block, and where to start when Redis is silent. */
  datatype Config = Config(chain: nat -> seq<Request>, start: nat)

  /** Between ranges, or in a range at an event of a block. */
  datatype Listener =
    | Idle(next: nat)
    | Working(next: nat, last: nat, block: nat, event: nat)

  datatype State = State(checkpoint: Option<nat>, handled: set<(nat, nat)>, listener: Option<Listener>)

  /** An event that fails ends the listener; its vote may have landed all the same. Waiting while the
      contract is halted changes nothing. */
  datatype Step =
    | Start(readOk: bool)
    | BeginRange(upTo: nat)
    | EventDone
    | EventFailed(landed: bool)
    | NextBlock
    | EndRange(writeOk: bool)
    | Crash

  predicate AtEvent(cfg: Config, l: Listener) {
    l.Working? && l.event < |cfg.chain(l.block)|
  }

  predicate BlockDone(cfg: Config, l: Listener) {
    l.Working? && l.event == |cfg.chain(l.block)|
  }

  predicate Enabled(cfg: Config, s: State, step: Step) {
    match step
    case Start(_) => s.listener.None?
    case Crash => true
    case BeginRange(upTo) => s.listener.Some? && s.listener.value.Idle? && s.listener.value.next <= upTo
    case EventDone => s.listener.Some? && AtEvent(cfg, s.listener.value)
    case EventFailed(_) => s.listener.Some? && AtEvent(cfg, s.listener.value)
    case NextBlock =>
      s.listener.Some? && BlockDone(cfg, s.listener.value) && s.listener.value.block < s.listener.value.last
    case EndRange(_) =>
      s.listener.Some? && BlockDone(cfg, s.listener.value) && s.listener.value.block == s.listener.value.last
  }

  function Next(cfg: Config, s: State, step: Step): State {
    if !Enabled(cfg, s, step) then s
    else match step
      case Start(readOk) =>
        s.(listener := Some(Idle(if readOk && s.checkpoint.Some? then s.checkpoint.value + 1 else cfg.start)))
      case Crash => s.(listener := None)
      case BeginRange(upTo) =>
        s.(listener := Some(Working(s.listener.value.next, upTo, s.listener.value.next, 0)))
      case EventDone =>
        var l := s.listener.value;
        s.(handled := s.handled + {(l.block, l.event)}, listener := Some(l.(event := l.event + 1)))
      case EventFailed(landed) =>
        var l := s.listener.value;
        s.(handled := if landed then s.handled + {(l.block, l.event)} else s.handled, listener := None)
      case NextBlock => s.(listener := Some(s.listener.value.(block := s.listener.value.block + 1, event := 0)))
      case EndRange(writeOk) =>
        var last := s.listener.value.last;
        if writeOk then s.(checkpoint := Some(last), listener := Some(Idle(last + 1))) else s.(listener := None)
  }

  function Run(cfg: Config, s: State, steps: seq<Step>): State
    decreases |steps|
  {
    if steps == [] then s else Run(cfg, Next(cfg, s, steps[0]), steps[1..])
  }

  lemma {:induction false} RunInTwo(cfg: Config, s: State, a: seq<Step>, b: seq<Step>)
    ensures Run(cfg, s, a + b) == Run(cfg, Run(cfg, s, a), b)
    decreases |a|
  {
    if a == [] {
      assert a + b == b;
    } else {
      assert (a + b)[1..] == a[1..] + b;
      RunInTwo(cfg, Next(cfg, s, a[0]), a[1..], b);
    }
  }

  lemma RunSnoc(cfg: Config, s: State, steps: seq<Step>, step: Step)
    ensures Run(cfg, s, steps + [step]) == Next(cfg, Run(cfg, s, steps), step)
  {
    RunInTwo(cfg, s, steps, [step]);
    var s' := Run(cfg, s, steps);
    assert [step][1..] == [];
    assert Run(cfg, s', [step]) == Run(cfg, Next(cfg, s', step), []);
  }

  // ----- the invariant

  ghost predicate HandledUpTo(cfg: Config, handled: set<(nat, nat)>, end: nat) {
    forall b, i :: cfg.start <= b < end && 0 <= i < |cfg.chain(b)| ==> (b, i) in handled
  }

  /** Everything before the range, and in the range everything before the current event, is handled. */
  ghost predicate ListenerOk(cfg: Config, l: Listener, handled: set<(nat, nat)>) {
    && cfg.start <= l.next && HandledUpTo(cfg, handled, l.next)
    && (l.Working? ==>
          && l.next <= l.block <= l.last && l.event <= |cfg.chain(l.block)| && HandledUpTo(cfg, handled, l.block)
          && forall i :: 0 <= i < l.event ==> (l.block, i) in handled)
  }

  ghost predicate Inv(cfg: Config, s: State) {
    && (s.checkpoint.Some? ==>
          cfg.start <= s.checkpoint.value + 1 && HandledUpTo(cfg, s.handled, s.checkpoint.value + 1))
    && (s.listener.Some? ==> ListenerOk(cfg, s.listener.value, s.handled))
  }

  lemma StepKeepsInv(cfg: Config, s: State, step: Step)
    requires Inv(cfg, s)
    ensures Inv(cfg, Next(cfg, s, step)) && s.handled <= Next(cfg, s, step).handled
  {
  }

  lemma {:induction false} RunKeepsInv(cfg: Config, s: State, steps: seq<Step>)
    requires Inv(cfg, s)
    ensures Inv(cfg, Run(cfg, s, steps)) && s.handled <= Run(cfg, s, steps).handled
    decreases |steps|
  {
    if steps != [] {
      StepKeepsInv(cfg, s, steps[0]);
      RunKeepsInv(cfg, Next(cfg, s, steps[0]), steps[1..]);
    }
  }

  /** Nothing relayed yet: Redis is empty, or was overridden with the block before the start block. */
  ghost predicate Fresh(cfg: Config, s: State) {
    s.listener.None? && s.handled == {} && (s.checkpoint.Some? ==> s.checkpoint.value + 1 == cfg.start)
  }

  /** Checkpoint safety over all failures, crashes and restarts: whenever the stored value is k, every
      transfer event of every block from the start block to k has been handled. */
  lemma CheckpointSafety(cfg: Config, s0: State, steps: seq<Step>, b: nat, i: nat)
    requires Fresh(cfg, s0)
    requires var s := Run(cfg, s0, steps);
             s.checkpoint.Some? && cfg.start <= b <= s.checkpoint.value && i < |cfg.chain(b)|
    ensures (b, i) in Run(cfg, s0, steps).handled
  {
    RunKeepsInv(cfg, s0, steps);
  }
}
