/** The loops of the two listeners: the shared pending set of the Aleph Zero listener, and the
    Ethereum listener's range-by-range main loop with its retry while the other bridge end is halted. */
module Listeners {
  import opened Prelude
  import opened Requests
  import opened Relayer
  import E = EthRelayer

  /** `BTreeSet::first` */
  method EarliestPending(pending: set<nat>) returns (m: nat)
    requires pending != {}
    ensures m == Min(pending)
  {
    m :| m in pending;
    var rest := pending - {m};
    while rest != {}
      invariant rest <= pending && m in pending
      invariant forall b :: b in pending && b !in rest ==> m <= b
      decreases rest
    {
      var b :| b in rest;
      if b < m {
        m := b;
      }
      rest := rest - {b};
    }
  }

  class PendingBlocks {
    var blocks: set<nat>
    var checkpoint: Option<nat>

    constructor (checkpoint: Option<nat>)
      ensures blocks == {} && this.checkpoint == checkpoint
    {
      blocks, this.checkpoint := {}, checkpoint;
    }

    method AddToPending(b: nat)
      modifies this`blocks
      ensures blocks == old(blocks) + {b}
    {
      blocks := blocks + {b};
    }

    /** The successors of a range, one lock at a time. */
    method AddSuccessors(first: nat, last: nat)
      requires first <= last
      modifies this`blocks
      ensures blocks == old(blocks) + Blocks(first + 1, last + 1)
    {
      for b := first to last + 1
        invariant blocks == old(blocks) + Blocks(first + 1, b)
      {
        AddToPending(b + 1);
      }
    }

    /** `seal_processed_block` once its event tasks are done; false where the source would panic. */
    method Seal(b: nat, writeOk: bool) returns (ok: bool)
      modifies this
      ensures blocks == old(blocks) - {b}
      ensures ok <==> Checkpoint(blocks).Some?
      ensures checkpoint == if ok && writeOk then Checkpoint(blocks) else old(checkpoint)
    {
      blocks := blocks - {b};
      if blocks == {} { return false; }
      var earliest := EarliestPending(blocks);
      if earliest == 0 { return false; }
      if writeOk {
        checkpoint := Some(earliest - 1);
      }
      return true;
    }
  }

  /** What one attempt to relay an event meets: the vote is accepted, the contract refuses (and is
      halted, or not), or something else goes wrong. */
  datatype Reply = Accepted | Refused(halted: bool) | Broken

  datatype Outcome = Done | Failed | Interrupted

  /** Transfer events of each Ethereum block, as the query over a range returns them. */
  type Events = nat -> seq<Request>

  /** How many events the blocks from `b` to before `end` carry. */
  ghost function EventCount(events: Events, b: nat, end: nat): nat
    decreases end - b
  {
    if b >= end then 0 else |events(b)| + EventCount(events, b + 1, end)
  }

  /** How relaying `n` events ends: refusals by a halted contract are retried, every event needs one
      acceptance, and anything else ends the listener. */
  ghost function Verdict(replies: seq<Reply>, n: nat): Outcome {
    if n == 0 then Done
    else if replies == [] then Interrupted
    else if replies[0] == Refused(true) then Verdict(replies[1..], n)
    else if replies[0] == Accepted then Verdict(replies[1..], n - 1)
    else Failed
  }

  /** The last block of a turn: finalized, and at most `syncStep` blocks in all. */
  function LastOf(next: nat, finalized: nat, syncStep: nat): int {
    if finalized < next + syncStep - 1 then finalized else next + syncStep - 1
  }

  /** The loops do what the steps of `EthRelayer` do: each method returns the steps it took. */
  class EthListener {
    const cfg: E.Config
    var next: nat
    var checkpoint: Option<nat>
    ghost var handled: set<(nat, nat)>

    ghost function Model(l: Option<E.Listener>): E.State
      reads this
    {
      E.State(checkpoint, handled, l)
    }

    /** Everything before the next block, hence everything up to the checkpoint, was handled. */
    ghost predicate Valid()
      reads this
    {
      E.Inv(cfg, Model(Some(E.Idle(next))))
    }

    constructor (cfg: E.Config)
      ensures Valid() && this.cfg == cfg && checkpoint == None && handled == {} && next == cfg.start
    {
      this.cfg, next, checkpoint, handled := cfg, cfg.start, None, {};
    }

    /** A restart keeps what is on the chains and in Redis, and re-reads where to continue. */
    method Restart(readOk: bool)
      requires Valid()
      modifies this`next
      ensures Valid() && Model(Some(E.Idle(next))) == E.Next(cfg, old(Model(None)), E.Start(readOk))
      ensures next == if readOk && checkpoint.Some? then checkpoint.value + 1 else cfg.start
    {
      next := if readOk && checkpoint.Some? then checkpoint.value + 1 else cfg.start;
    }

    /** The events of one block, with `rest` events still to come after it. */
    method RelayBlock(b: nat, replies: seq<Reply>, start: nat, ghost last: nat, ghost rest: nat)
      returns (r: Outcome, attempt: nat, ghost steps: seq<E.Step>)
      requires start <= |replies|
      modifies this`handled
      ensures attempt <= |replies| && old(handled) <= handled
      ensures forall c, i :: (c, i) in handled && (c, i) !in old(handled) ==> c == b && 0 <= i < |cfg.chain(b)|
      ensures r.Done? ==> Verdict(replies[start..], |cfg.chain(b)| + rest) == Verdict(replies[attempt..], rest)
      ensures !r.Done? ==> Verdict(replies[start..], |cfg.chain(b)| + rest) == r
      ensures E.Run(cfg, old(Model(Some(E.Working(next, last, b, 0)))), steps)
              == Model(if r.Done? then Some(E.Working(next, last, b, |cfg.chain(b)|)) else None)
    {
      attempt, steps := start, [];
      ghost var from := Model(Some(E.Working(next, last, b, 0)));
      for i := 0 to |cfg.chain(b)|
        invariant attempt <= |replies| && old(handled) <= handled
        invariant forall c, k :: (c, k) in handled && (c, k) !in old(handled) ==> c == b && 0 <= k < |cfg.chain(b)|
        invariant Verdict(replies[start..], |cfg.chain(b)| + rest)
                  == Verdict(replies[attempt..], |cfg.chain(b)| - i + rest)
        invariant E.Run(cfg, from, steps) == Model(Some(E.Working(next, last, b, i)))
      {
        attempt := Retry(replies, attempt, |cfg.chain(b)| - i + rest);
        if attempt == |replies| {
          E.RunSnoc(cfg, from, steps, E.Crash);
          return Interrupted, attempt, steps + [E.Crash];
        }
        if replies[attempt] != Accepted {
          E.RunSnoc(cfg, from, steps, E.EventFailed(false));
          return Failed, attempt, steps + [E.EventFailed(false)];
        }
        assert replies[attempt..][1..] == replies[attempt + 1..];
        E.RunSnoc(cfg, from, steps, E.EventDone);
        attempt, steps := attempt + 1, steps + [E.EventDone];
        handled := handled + {(b, i)};
      }
      r := Done;
    }

    /** One turn of the main loop, as a run of the listener's steps. Consecutive turns tile the chain
        without gap or overlap: a turn whose events all got through moves on past its last block and
        writes that block; any other turn moves neither. `replies` is what the attempts meet. */
    method ProcessRange(finalized: nat, syncStep: nat, replies: seq<Reply>, writeOk: bool)
      returns (r: Outcome, ghost steps: seq<E.Step>)
      requires Valid() && next <= finalized && syncStep >= 1
      modifies this
      ensures Valid() && old(handled) <= handled
      ensures var end := LastOf(old(next), finalized, syncStep) + 1;
              var verdict := Verdict(replies, EventCount(cfg.chain, old(next), end));
              && r == (if verdict.Done? && !writeOk then Failed else verdict)
              && next == (if verdict.Done? then end else old(next))
              && checkpoint == (if r.Done? then Some(end - 1) else old(checkpoint))
      ensures forall b, i :: old(next) <= b < next && 0 <= i < |cfg.chain(b)| ==> (b, i) in handled
      ensures forall b, i :: (b, i) in handled && (b, i) !in old(handled) ==>
                old(next) <= b <= finalized && 0 <= i < |cfg.chain(b)|
      ensures E.Run(cfg, old(Model(Some(E.Idle(next)))), steps)
              == Model(if r.Done? then Some(E.Idle(next)) else None)
    {
      ghost var from := Model(Some(E.Idle(next)));
      r, steps := RelayRange(LastOf(next, finalized, syncStep), replies);
      E.RunKeepsInv(cfg, from, steps);
      if !r.Done? { return; }
      E.RunSnoc(cfg, from, steps, E.EndRange(writeOk));
      E.RunKeepsInv(cfg, from, steps + [E.EndRange(writeOk)]);
      // the next block moves on even where the checkpoint cannot be written
      E.RunSnoc(cfg, from, steps, E.EndRange(true));
      E.RunKeepsInv(cfg, from, steps + [E.EndRange(true)]);
      next := LastOf(next, finalized, syncStep) + 1;
      steps := steps + [E.EndRange(writeOk)];
      if !writeOk { return Failed, steps; }
      checkpoint := Some(next - 1);
    }

    /** The events of the range up to `last`, block by block. */
    method RelayRange(last: nat, replies: seq<Reply>) returns (r: Outcome, ghost steps: seq<E.Step>)
      requires next <= last
      modifies this`handled
      ensures old(handled) <= handled
      ensures forall c, i :: (c, i) in handled && (c, i) !in old(handled) ==>
                next <= c <= last && 0 <= i < |cfg.chain(c)|
      ensures r == Verdict(replies, EventCount(cfg.chain, next, last + 1))
      ensures E.Run(cfg, old(Model(Some(E.Idle(next)))), steps)
              == Model(if r.Done? then Some(E.Working(next, last, last, |cfg.chain(last)|)) else None)
    {
      var attempt := 0;
      ghost var from := Model(Some(E.Idle(next)));
      steps := [E.BeginRange(last)];
      E.RunSnoc(cfg, from, [], E.BeginRange(last));
      assert [] + [E.BeginRange(last)] == steps && replies[0..] == replies;
      for b := next to last + 1
        invariant 0 <= attempt <= |replies| && old(handled) <= handled
        invariant forall c, i :: (c, i) in handled && (c, i) !in old(handled) ==>
                    next <= c <= last && 0 <= i < |cfg.chain(c)|
        invariant Verdict(replies, EventCount(cfg.chain, next, last + 1))
                  == Verdict(replies[attempt..], EventCount(cfg.chain, b, last + 1))
        invariant E.Run(cfg, from, steps)
                  == Model(Some(if b <= last then E.Working(next, last, b, 0)
                                else E.Working(next, last, last, |cfg.chain(last)|)))
      {
        ghost var more;
        r, attempt, more := RelayBlock(b, replies, attempt, last, EventCount(cfg.chain, b + 1, last + 1));
        E.RunInTwo(cfg, from, steps, more);
        steps := steps + more;
        if !r.Done? { return; }
        if b < last {
          E.RunSnoc(cfg, from, steps, E.NextBlock);
          steps := steps + [E.NextBlock];
        }
      }
      r := Done;
    }
  }

  /** While the other contract is halted: wait until it is not, then try the same event again. */
  method Retry(replies: seq<Reply>, start: nat, ghost n: nat) returns (attempt: nat)
    requires start <= |replies| && n > 0
    ensures start <= attempt <= |replies| && (attempt < |replies| ==> replies[attempt] != Refused(true))
    ensures Verdict(replies[attempt..], n) == Verdict(replies[start..], n)
  {
    attempt := start;
    while attempt < |replies| && replies[attempt] == Refused(true)
      invariant start <= attempt <= |replies| && Verdict(replies[attempt..], n) == Verdict(replies[start..], n)
    {
      assert replies[attempt..][1..] == replies[attempt + 1..];
      attempt := attempt + 1;
    }
  }
}
