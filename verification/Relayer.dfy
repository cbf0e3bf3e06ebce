/** The Aleph Zero listener as a concurrent protocol. The main loop adds block numbers to a shared set
    and spawns one sealing task per block; tasks finish in any order or fail; a crash loses
    everything but the checkpoint in Redis and what already happened on Ethereum. */
module Relayer {
  import opened Prelude
  import opened Requests

  /** The transfer requests of each finalized block, and the block to start from when Redis is silent. */
  datatype Config = Config(chain: nat -> seq<AzRequest>, start: nat)

  /** Where the main loop is: between ranges, adding the successors of a range to the pending set one
      lock at a time, or spawning the sealing tasks of the range in the order its events were fetched. */
  datatype Stage = Idle | Adding(upTo: nat, at: nat) | Spawning(to: nat, todo: set<nat>)

  /** `tasks` maps a block being sealed to the events it still waits for; `sealed` is history. */
  datatype Listener = Listener(
    first: nat, next: nat, stage: Stage, pending: set<nat>, tasks: map<nat, set<nat>>, sealed: set<nat>)

  datatype State = State(checkpoint: Option<nat>, handled: set<(nat, nat)>, listener: Option<Listener>)

  datatype Step =
    | Start(readOk: bool)
    | BeginRange(to: nat)
    | AddNext
    | Spawn(block: nat)
    | EndRange
    | EventDone(block: nat, event: nat)
    | EventFailed(block: nat, event: nat, landed: bool)
    | Seal(block: nat, writeOk: bool)
    | Crash

  ghost function Min(s: set<nat>): (m: nat)
    requires s != {}
    ensures m in s && forall x :: x in s ==> m <= x
  {
    var x :| x in s;
    assert forall y :: y in s ==> y == x || y in s - {x};
    if s - {x} == {} then x else
      var rest := Min(s - {x});
      if x <= rest then x else rest
  }

  /** The value to write after a block left the set: one less than the earliest block still pending.
      `None` where the source would panic on an empty set or underflow. */
  ghost function Checkpoint(pending: set<nat>): Option<nat> {
    if pending == {} || Min(pending) == 0 then None else Some(Min(pending) - 1)
  }

  function Blocks(first: nat, last: int): (s: set<nat>)
    ensures forall b: nat :: b in s <==> first <= b <= last
    decreases last - first
  {
    if last < first then {} else Blocks(first, last - 1) + {last}
  }

  function EventsOf(cfg: Config, block: nat): set<nat> {
    Blocks(0, |cfg.chain(block)| - 1)
  }

  ghost predicate Enabled(s: State, step: Step) {
    if step.Start? then s.listener.None?
    else s.listener.Some? && var l := s.listener.value;
      match step
      case BeginRange(to) => l.stage.Idle? && l.next <= to
      case AddNext => l.stage.Adding?
      case Spawn(b) => l.stage.Spawning? && b in l.stage.todo
      case EndRange => l.stage.Spawning? && l.stage.todo == {}
      case EventDone(b, i) => b in l.tasks && i in l.tasks[b]
      case EventFailed(b, i, _) => b in l.tasks && i in l.tasks[b]
      case Seal(b, _) => b in l.tasks && l.tasks[b] == {}
      case _ => true
  }

  /** `read_first_unprocessed_block_number` */
  function FirstUnprocessed(cfg: Config, checkpoint: Option<nat>, readOk: bool): nat {
    if readOk && checkpoint.Some? then checkpoint.value + 1 else cfg.start
  }

  ghost function Moved(cfg: Config, l: Listener, step: Step): Listener
    requires Enabled(State(None, {}, Some(l)), step)
  {
    match step
    case BeginRange(to) => l.(stage := Adding(to, l.next))
    case AddNext =>
      var (to, at) := (l.stage.upTo, l.stage.at);
      l.(pending := l.pending + {at + 1},
         stage := if at < to then Adding(to, at + 1) else Spawning(at, Blocks(l.next, at)))
    case Spawn(b) => l.(tasks := l.tasks[b := EventsOf(cfg, b)], stage := l.stage.(todo := l.stage.todo - {b}))
    case EndRange => l.(next := l.stage.to + 1, stage := Idle)
    case EventDone(b, i) => l.(tasks := l.tasks[b := l.tasks[b] - {i}])
    case EventFailed(b, _, _) => l.(tasks := l.tasks - {b})
    case Seal(b, _) => l.(pending := l.pending - {b}, tasks := l.tasks - {b}, sealed := l.sealed + {b})
    case _ => l
  }

  ghost function Next(cfg: Config, s: State, step: Step): State {
    if !Enabled(s, step) then s
    else match step
      case Start(readOk) =>
        var first := FirstUnprocessed(cfg, s.checkpoint, readOk);
        s.(listener := Some(Listener(first, first, Idle, {first}, map[], {})))
      case Crash => s.(listener := None)
      case EventDone(b, i) =>
        s.(listener := Some(Moved(cfg, s.listener.value, step)), handled := s.handled + {(b, i)})
      case EventFailed(b, i, landed) =>
        s.(listener := Some(Moved(cfg, s.listener.value, step)),
           handled := if landed then s.handled + {(b, i)} else s.handled)
      case Seal(b, writeOk) =>
        // the lock on the pending set is held across the write, so both happen in one step
        var l := Moved(cfg, s.listener.value, step);
        var value := Checkpoint(l.pending);
        if value.None? then s.(listener := None)
        else s.(listener := Some(l), checkpoint := if writeOk then value else s.checkpoint)
      case _ => s.(listener := Some(Moved(cfg, s.listener.value, step)))
  }

  ghost function Run(cfg: Config, s: State, steps: seq<Step>): State
    decreases |steps|
  {
    if steps == [] then s else Run(cfg, Next(cfg, s, steps[0]), steps[1..])
  }

  // ----- the invariant

  ghost predicate BlockHandled(cfg: Config, handled: set<(nat, nat)>, b: nat) {
    forall i :: 0 <= i < |cfg.chain(b)| ==> (b, i) in handled
  }

  ghost predicate HandledUpTo(cfg: Config, handled: set<(nat, nat)>, end: nat) {
    forall b :: cfg.start <= b < end ==> BlockHandled(cfg, handled, b)
  }

  /** The next unscheduled block: always pending, never sealed. */
  function Top(l: Listener): nat {
    match l.stage
    case Idle => l.next
    case Adding(_, at) => at
    case Spawning(to, _) => to + 1
  }

  ghost predicate StageOk(l: Listener) {
    match l.stage
    case Idle => true
    case Adding(to, at) => l.next <= at <= to
    case Spawning(to, todo) => l.next <= to && todo <= Blocks(l.next, to)
  }

  ghost predicate Spawned(l: Listener, b: nat) {
    b < l.next || (l.stage.Spawning? && b <= l.stage.to && b !in l.stage.todo)
  }

  /** Pending and sealed blocks partition the range from the first block to the next unscheduled one. */
  ghost predicate Partition(l: Listener) {
    && l.pending !! l.sealed
    && (forall b :: b in l.pending || b in l.sealed <==> l.first <= b <= Top(l))
  }

  ghost predicate ListenerOk(cfg: Config, l: Listener, handled: set<(nat, nat)>) {
    && cfg.start <= l.first <= l.next && StageOk(l) && Partition(l)
    && HandledUpTo(cfg, handled, l.first)
    && (forall b :: b in l.sealed ==> Spawned(l, b) && BlockHandled(cfg, handled, b))
    && (forall b :: b in l.tasks ==> Spawned(l, b) && b in l.pending)
    && (forall b, i :: b in l.tasks && 0 <= i < |cfg.chain(b)| ==> i in l.tasks[b] || (b, i) in handled)
  }

  ghost predicate Inv(cfg: Config, s: State) {
    && cfg.start >= 1
    && (s.checkpoint.Some? ==>
          cfg.start <= s.checkpoint.value + 1 && HandledUpTo(cfg, s.handled, s.checkpoint.value + 1))
    && (s.listener.Some? ==> ListenerOk(cfg, s.listener.value, s.handled))
  }

  lemma TopIsPending(cfg: Config, l: Listener, handled: set<(nat, nat)>)
    requires ListenerOk(cfg, l, handled)
    ensures Top(l) in l.pending && Top(l) !in l.tasks
  {
    assert l.first <= Top(l);
  }

  lemma MovedKeeps(cfg: Config, l: Listener, handled: set<(nat, nat)>, step: Step)
    requires ListenerOk(cfg, l, handled) && Enabled(State(None, {}, Some(l)), step)
    requires step.BeginRange? || step.AddNext? || step.Spawn? || step.EndRange?
    ensures ListenerOk(cfg, Moved(cfg, l, step), handled)
  {
    TopIsPending(cfg, l, handled);
    var l' := Moved(cfg, l, step);
    match step
    case BeginRange(to) =>
    case AddNext =>
    case EndRange =>
    case Spawn(b) =>
      assert b in l.pending;
  }

  lemma HandledGrows(cfg: Config, handled: set<(nat, nat)>, handled': set<(nat, nat)>)
    requires handled <= handled'
    ensures forall b :: BlockHandled(cfg, handled, b) ==> BlockHandled(cfg, handled', b)
  {
  }

  lemma TaskKeeps(cfg: Config, l: Listener, handled: set<(nat, nat)>, handled': set<(nat, nat)>, step: Step)
    requires ListenerOk(cfg, l, handled) && Enabled(State(None, {}, Some(l)), step) && handled <= handled'
    requires step.EventFailed? || (step.EventDone? && (step.block, step.event) in handled')
    ensures ListenerOk(cfg, Moved(cfg, l, step), handled')
  {
    HandledGrows(cfg, handled, handled');
  }

  /** Sealing is only possible with every event of the block handled, leaves the set non-empty, and
      everything below its new minimum has been handled. */
  lemma SealKeeps(cfg: Config, l: Listener, handled: set<(nat, nat)>, step: Step)
    requires ListenerOk(cfg, l, handled) && cfg.start >= 1 && step.Seal? && Enabled(State(None, {}, Some(l)), step)
    ensures var l' := Moved(cfg, l, step);
            && ListenerOk(cfg, l', handled)
            && Checkpoint(l'.pending).Some?
            && cfg.start <= Checkpoint(l'.pending).value + 1
            && HandledUpTo(cfg, handled, Checkpoint(l'.pending).value + 1)
  {
    TopIsPending(cfg, l, handled);
    var l' := Moved(cfg, l, step);
    assert BlockHandled(cfg, handled, step.block);
    assert ListenerOk(cfg, l', handled);
    assert Top(l') in l'.pending;
    var m := Min(l'.pending);
    assert l'.first <= m;
    forall b | cfg.start <= b < m ensures BlockHandled(cfg, handled, b) {
      if l'.first <= b {
        assert b in l'.sealed;
      }
    }
  }

  lemma StepKeepsInv(cfg: Config, s: State, step: Step)
    requires Inv(cfg, s)
    ensures Inv(cfg, Next(cfg, s, step)) && s.handled <= Next(cfg, s, step).handled
  {
    var s' := Next(cfg, s, step);
    HandledGrows(cfg, s.handled, s'.handled);
    if Enabled(s, step) {
      match step
      case Start(readOk) =>
      case Crash =>
      case Seal(b, _) => SealKeeps(cfg, s.listener.value, s.handled, step);
      case EventDone(b, i) => TaskKeeps(cfg, s.listener.value, s.handled, s'.handled, step);
      case EventFailed(b, i, _) => TaskKeeps(cfg, s.listener.value, s.handled, s'.handled, step);
      case _ => MovedKeeps(cfg, s.listener.value, s.handled, step);
    }
  }

  lemma {:induction false} RunKeepsInv(cfg: Config, s: State, steps: seq<Step>)
    requires Inv(cfg, s)
    ensures Inv(cfg, Run(cfg, s, steps))
    decreases |steps|
  {
    if steps != [] {
      StepKeepsInv(cfg, s, steps[0]);
      RunKeepsInv(cfg, Next(cfg, s, steps[0]), steps[1..]);
    }
  }

  /** Nothing relayed yet: Redis is empty, or was overridden with the block before the start block. */
  ghost predicate Fresh(cfg: Config, s: State) {
    && cfg.start >= 1 && s.listener.None? && s.handled == {}
    && (s.checkpoint == None || s.checkpoint == Some(cfg.start - 1))
  }

  // ----- main results

  /** Checkpoint safety over all interleavings, failures, crashes and restarts: whenever the stored
      value is k, every transfer event of every block from the start block to k has been handled. */
  lemma CheckpointSafety(cfg: Config, s0: State, steps: seq<Step>, b: nat, i: nat)
    requires Fresh(cfg, s0)
    requires var s := Run(cfg, s0, steps);
             s.checkpoint.Some? && cfg.start <= b <= s.checkpoint.value && i < |cfg.chain(b)|
    ensures (b, i) in Run(cfg, s0, steps).handled
  {
    RunKeepsInv(cfg, s0, steps);
    assert BlockHandled(cfg, Run(cfg, s0, steps).handled, b);
  }

  /** Pending and sealed blocks always partition a contiguous range, so a sealing task never finds the
      set empty and never writes below zero. */
  lemma PendingNeverRunsOut(cfg: Config, s0: State, steps: seq<Step>)
    requires Fresh(cfg, s0) && Run(cfg, s0, steps).listener.Some?
    ensures var l := Run(cfg, s0, steps).listener.value;
            && l.pending !! l.sealed
            && (forall b :: b in l.pending + l.sealed <==> l.first <= b <= Top(l))
            && (forall b :: b in l.tasks && l.tasks[b] == {} ==> Checkpoint(l.pending - {b}).Some?)
  {
    RunKeepsInv(cfg, s0, steps);
    var s := Run(cfg, s0, steps);
    var l := s.listener.value;
    forall b | b in l.tasks && l.tasks[b] == {} ensures Checkpoint(l.pending - {b}).Some? {
      SealKeeps(cfg, l, s.handled, Seal(b, true));
    }
  }

  /** The checkpoint loses nothing: what a sealing task writes is the last block of the stretch of sealed
      blocks from the first one on, so the block after it is still pending. */
  lemma CheckpointIsTight(cfg: Config, s0: State, steps: seq<Step>, b: nat)
    requires Fresh(cfg, s0) && Enabled(Run(cfg, s0, steps), Seal(b, true))
    ensures var s' := Next(cfg, Run(cfg, s0, steps), Seal(b, true));
            && s'.checkpoint.Some? && s'.listener.Some?
            && var (k, l') := (s'.checkpoint.value, s'.listener.value);
               && l'.sealed == Run(cfg, s0, steps).listener.value.sealed + {b} && b !in l'.pending
               && k + 1 in l'.pending && forall d :: l'.first <= d <= k ==> d in l'.sealed
  {
    RunKeepsInv(cfg, s0, steps);
    var s := Run(cfg, s0, steps);
    SealKeeps(cfg, s.listener.value, s.handled, Seal(b, true));
  }

  // ----- failures, crashes and failed writes

  /** The block was scheduled, its task is gone, and it is still pending. */
  ghost predicate Stuck(l: Listener, b: nat) {
    b in l.pending && b !in l.tasks && Spawned(l, b)
  }

  lemma StaysStuck(cfg: Config, s: State, step: Step, b: nat)
    requires Inv(cfg, s) && s.listener.Some? && Stuck(s.listener.value, b) && !step.Start? && !step.Crash?
    ensures var s' := Next(cfg, s, step);
            && s'.listener.Some? && Stuck(s'.listener.value, b)
            && (s'.checkpoint == s.checkpoint || (s'.checkpoint.Some? && s'.checkpoint.value < b))
  {
    var l := s.listener.value;
    TopIsPending(cfg, l, s.handled);
    if Enabled(s, step) && step.Seal? {
      SealKeeps(cfg, l, s.handled, step);
    }
  }

  /** A failed event holds the checkpoint back: until the listener restarts, whatever the other tasks do,
      its block stays pending, and nothing at or above it is written. */
  lemma {:induction false} StuckHoldsCheckpoint(cfg: Config, s: State, steps: seq<Step>, b: nat)
    requires Inv(cfg, s) && s.listener.Some? && Stuck(s.listener.value, b)
    requires forall k :: 0 <= k < |steps| ==> !steps[k].Start? && !steps[k].Crash?
    ensures var s' := Run(cfg, s, steps);
            && s'.listener.Some? && b in s'.listener.value.pending
            && (s'.checkpoint == s.checkpoint || (s'.checkpoint.Some? && s'.checkpoint.value < b))
    decreases |steps|
  {
    if steps != [] {
      StepKeepsInv(cfg, s, steps[0]);
      StaysStuck(cfg, s, steps[0], b);
      StuckHoldsCheckpoint(cfg, Next(cfg, s, steps[0]), steps[1..], b);
    }
  }

  lemma FailureHoldsCheckpoint(cfg: Config, s: State, b: nat, i: nat, landed: bool, steps: seq<Step>)
    requires Inv(cfg, s) && Enabled(s, EventFailed(b, i, landed))
    requires forall k :: 0 <= k < |steps| ==> !steps[k].Start? && !steps[k].Crash?
    ensures var s' := Run(cfg, Next(cfg, s, EventFailed(b, i, landed)), steps);
            && s'.listener.Some? && b in s'.listener.value.pending
            && (s'.checkpoint == s.checkpoint || (s'.checkpoint.Some? && s'.checkpoint.value < b))
  {
    var s' := Next(cfg, s, EventFailed(b, i, landed));
    StepKeepsInv(cfg, s, EventFailed(b, i, landed));
    assert Stuck(s'.listener.value, b);
    StuckHoldsCheckpoint(cfg, s', steps, b);
  }

  /** After a crash and a restart nothing is left of the listener: only the checkpoint and what happened on
      Ethereum count. */
  lemma RestartForgets(cfg: Config, s: State, t: State, readOk: bool)
    requires s.checkpoint == t.checkpoint && s.handled == t.handled && s.listener.Some?
    ensures Next(cfg, s, Crash).checkpoint == s.checkpoint && Next(cfg, s, Crash).handled == s.handled
    ensures Next(cfg, Next(cfg, s, Crash), Start(readOk)) == Next(cfg, t.(listener := None), Start(readOk))
    ensures var l := Next(cfg, Next(cfg, s, Crash), Start(readOk)).listener;
            && l.Some? && l.value.pending == {l.value.first} && l.value.tasks == map[] && l.value.stage.Idle?
            && l.value.next == l.value.first
            && l.value.first == if readOk && s.checkpoint.Some? then s.checkpoint.value + 1 else cfg.start
  {
  }

  /** The checkpoint changes only where a sealing task's write succeeds, and an event counts as handled only
      where its task, or its vote, says so. */
  lemma OnlySealWrites(cfg: Config, s: State, step: Step)
    ensures Next(cfg, s, step).checkpoint != s.checkpoint ==> step.Seal? && step.writeOk && Enabled(s, step)
    ensures forall b, i :: (b, i) in Next(cfg, s, step).handled && (b, i) !in s.handled ==>
              Enabled(s, step) && (step == EventDone(b, i) || step == EventFailed(b, i, true))
  {
  }

  // ----- monotone checkpoints

  /** Nothing is pending at or below the checkpoint. */
  ghost predicate Ahead(s: State) {
    s.listener.Some? && s.checkpoint.Some? ==> forall b :: b in s.listener.value.pending ==> s.checkpoint.value < b
  }

  ghost predicate NotBelow(before: Option<nat>, after: Option<nat>) {
    before.Some? ==> after.Some? && before.value <= after.value
  }

  lemma StepKeepsAhead(cfg: Config, s: State, step: Step)
    requires Inv(cfg, s) && Ahead(s) && (step.Start? ==> step.readOk)
    ensures var s' := Next(cfg, s, step); Ahead(s') && NotBelow(s.checkpoint, s'.checkpoint)
  {
    if Enabled(s, step) && s.listener.Some? {
      TopIsPending(cfg, s.listener.value, s.handled);
      if step.Seal? {
        SealKeeps(cfg, s.listener.value, s.handled, step);
      }
    }
  }

  /** Redis answers at every start. */
  ghost predicate ReadsOk(steps: seq<Step>) {
    forall k :: 0 <= k < |steps| && steps[k].Start? ==> steps[k].readOk
  }

  /** As long as Redis answers at every start, the checkpoint never goes back, within a listener's
      life or across crashes. */
  lemma {:induction false} CheckpointNeverDecreases(cfg: Config, s: State, steps: seq<Step>)
    requires Inv(cfg, s) && Ahead(s) && ReadsOk(steps)
    ensures NotBelow(s.checkpoint, Run(cfg, s, steps).checkpoint)
    decreases |steps|
  {
    if steps != [] {
      StepKeepsInv(cfg, s, steps[0]);
      StepKeepsAhead(cfg, s, steps[0]);
      CheckpointNeverDecreases(cfg, Next(cfg, s, steps[0]), steps[1..]);
    }
  }

  // ----- when it can go back

  lemma {:induction false} RunInTwo(cfg: Config, s: State, a: seq<Step>, b: seq<Step>)
    ensures Run(cfg, s, a + b) == Run(cfg, Run(cfg, s, a), b)
    decreases |a|
  {
    if a == [] {
      assert a + b == b;
    } else {
      assert (a + b)[1..] == a[1..] + b;
      RunInTwo(cfg, Next(cfg, s, a[0]), a[1..], b);
    }
  }

  /** The remaining events of a block are handled, one after the other. */
  function Dones(b: nat, i: nat, n: nat): (steps: seq<Step>)
    ensures forall k :: 0 <= k < |steps| ==> steps[k].EventDone?
    decreases n - i
  {
    if i >= n then [] else [EventDone(b, i)] + Dones(b, i + 1, n)
  }

  lemma {:induction false} BlockGetsDone(cfg: Config, s: State, b: nat, i: nat, n: nat)
    requires s.listener.Some? && b in s.listener.value.tasks && s.listener.value.tasks[b] == Blocks(i, n - 1)
    ensures var s' := Run(cfg, s, Dones(b, i, n));
            && s'.checkpoint == s.checkpoint && s'.listener.Some?
            && s'.listener.value.pending == s.listener.value.pending
            && b in s'.listener.value.tasks && s'.listener.value.tasks[b] == {}
    decreases n - i
  {
    if i < n {
      var s' := Next(cfg, s, EventDone(b, i));
      assert Blocks(i, n - 1) - {i} == Blocks(i + 1, n - 1);
      assert Dones(b, i, n)[1..] == Dones(b, i + 1, n);
      BlockGetsDone(cfg, s', b, i + 1, n);
    }
  }

  lemma RunCons(cfg: Config, s: State, step: Step, rest: seq<Step>)
    ensures Run(cfg, s, [step] + rest) == Run(cfg, Next(cfg, s, step), rest)
  {
    assert ([step] + rest)[1..] == rest;
  }

  /** A schedule that seals the second block of the first range before the first one. */
  function SecondFirst(first: nat, events: nat): (steps: seq<Step>)
    ensures ReadsOk(steps)
  {
    OpeningThen(first, Dones(first + 1, 0, events) + ([Seal(first + 1, true)] + []))
  }

  function OpeningThen(first: nat, rest: seq<Step>): seq<Step> {
    [BeginRange(first + 1)] + ([AddNext] + ([AddNext] + ([Spawn(first + 1)] + rest)))
  }

  /** Two blocks are scheduled and the second one gets its sealing task. */
  function Opened(cfg: Config, s: State, first: nat): State {
    var pending := {first, first + 1, first + 2};
    s.(listener := Some(Listener(first, first, Spawning(first + 1, Blocks(first, first + 1) - {first + 1}), pending,
                                 map[first + 1 := EventsOf(cfg, first + 1)], {})))
  }

  lemma Opening(cfg: Config, s: State, first: nat)
    requires s.listener == Some(Listener(first, first, Idle, {first}, map[], {}))
    ensures Next(cfg, Next(cfg, Next(cfg, Next(cfg, s, BeginRange(first + 1)), AddNext), AddNext), Spawn(first + 1))
            == Opened(cfg, s, first)
  {
    var s1 := Next(cfg, s, BeginRange(first + 1));
    var s2 := Next(cfg, s1, AddNext);
    assert {first} + {first + 1} == {first, first + 1};
    assert s2.listener == Some(Listener(first, first, Adding(first + 1, first + 1), {first, first + 1}, map[], {}));
    var s3 := Next(cfg, s2, AddNext);
    assert {first, first + 1} + {first + 2} == {first, first + 1, first + 2};
    assert s3.listener == Some(Listener(first, first, Spawning(first + 1, Blocks(first, first + 1)),
                                        {first, first + 1, first + 2}, map[], {}));
    assert first + 1 in Blocks(first, first + 1);
  }

  lemma RunOpening(cfg: Config, s: State, first: nat, rest: seq<Step>)
    requires s.listener == Some(Listener(first, first, Idle, {first}, map[], {}))
    ensures Run(cfg, s, OpeningThen(first, rest)) == Run(cfg, Opened(cfg, s, first), rest)
  {
    var b := first + 1;
    var s1 := Next(cfg, s, BeginRange(b));
    var s2 := Next(cfg, s1, AddNext);
    RunCons(cfg, s, BeginRange(b), [AddNext] + ([AddNext] + ([Spawn(b)] + rest)));
    RunCons(cfg, s1, AddNext, [AddNext] + ([Spawn(b)] + rest));
    RunCons(cfg, s2, AddNext, [Spawn(b)] + rest);
    RunCons(cfg, Next(cfg, s2, AddNext), Spawn(b), rest);
    Opening(cfg, s, first);
  }

  lemma SealSecond(cfg: Config, s: State, first: nat)
    requires first >= 1 && s.listener.Some? && s.listener.value.pending == {first, first + 1, first + 2}
    requires first + 1 in s.listener.value.tasks && s.listener.value.tasks[first + 1] == {}
    ensures Next(cfg, s, Seal(first + 1, true)).checkpoint == Some(first - 1)
  {
    assert s.listener.value.pending - {first + 1} == {first, first + 2};
    assert Min({first, first + 2}) == first;
  }

  lemma FinishSecond(cfg: Config, s: State, first: nat, n: nat)
    requires first >= 1 && s.listener.Some? && s.listener.value.pending == {first, first + 1, first + 2}
    requires first + 1 in s.listener.value.tasks && s.listener.value.tasks[first + 1] == Blocks(0, n - 1)
    ensures Run(cfg, s, Dones(first + 1, 0, n) + ([Seal(first + 1, true)] + [])).checkpoint == Some(first - 1)
  {
    BlockGetsDone(cfg, s, first + 1, 0, n);
    RunInTwo(cfg, s, Dones(first + 1, 0, n), [Seal(first + 1, true)] + []);
    var s' := Run(cfg, s, Dones(first + 1, 0, n));
    RunCons(cfg, s', Seal(first + 1, true), []);
    SealSecond(cfg, s', first);
  }

  /** Under that schedule the checkpoint becomes the block before the first one, whatever it was. */
  lemma SecondFirstRewinds(cfg: Config, s: State, first: nat)
    requires first >= 1 && s.listener == Some(Listener(first, first, Idle, {first}, map[], {}))
    ensures Run(cfg, s, SecondFirst(first, |cfg.chain(first + 1)|)).checkpoint == Some(first - 1)
  {
    var n := |cfg.chain(first + 1)|;
    RunOpening(cfg, s, first, Dones(first + 1, 0, n) + ([Seal(first + 1, true)] + []));
    FinishSecond(cfg, Opened(cfg, s, first), first, n);
  }

  ghost predicate Rewinds(cfg: Config, s: State, s': State, steps: seq<Step>) {
    !NotBelow(s.checkpoint, Run(cfg, s', steps).checkpoint)
  }

  /** Exactly when a start can lead to the checkpoint going back without any further failed read: Redis
      failed to answer at this start, and the checkpoint had reached the configured start block. */
  lemma RewindNeedsFailedRead(cfg: Config, s: State, readOk: bool)
    requires Inv(cfg, s) && s.listener.None? && s.checkpoint.Some?
    ensures (exists steps :: ReadsOk(steps) && Rewinds(cfg, s, Next(cfg, s, Start(readOk)), steps))
            <==> !readOk && cfg.start <= s.checkpoint.value
  {
    var s' := Next(cfg, s, Start(readOk));
    if !readOk && cfg.start <= s.checkpoint.value {
      SecondFirstRewinds(cfg, s', cfg.start);
      var steps := SecondFirst(cfg.start, |cfg.chain(cfg.start + 1)|);
      assert ReadsOk(steps) && Rewinds(cfg, s, s', steps);
    } else {
      StepKeepsInv(cfg, s, Start(readOk));
      forall steps | ReadsOk(steps) ensures !Rewinds(cfg, s, s', steps) {
        CheckpointNeverDecreases(cfg, s', steps);
      }
    }
  }
}
