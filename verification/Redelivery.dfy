/** Delivering votes at least once to a contract that counts them once, for any contract. */
module Redelivery {
  import opened Prelude

  /** A contract as far as votes go: its step, which vote a call carries, whether a call is accepted, and
      whether a vote is on record. */
  datatype Contract<!S, !K, !V> = Contract(
    next: (S, K) -> S, vote: K -> Option<V>, accepts: (S, K) -> bool, recorded: (S, V) -> bool)

  /** An accepted vote goes on record, stays there, and changes nothing when it comes again. */
  ghost predicate CountsOnce<S(!new), K(!new), V(!new)>(c: Contract<S, K, V>) {
    && (forall s, k :: c.vote(k).Some? && c.accepts(s, k) ==> c.recorded(c.next(s, k), c.vote(k).value))
    && (forall s, k, v :: c.recorded(s, v) ==> c.recorded(c.next(s, k), v))
    && (forall s, k :: c.vote(k).Some? && c.recorded(s, c.vote(k).value) ==> c.next(s, k) == s)
  }

  ghost function Run<S, K, V>(c: Contract<S, K, V>, s: S, calls: seq<K>): S
    decreases |calls|
  {
    if calls == [] then s else Run(c, c.next(s, calls[0]), calls[1..])
  }

  /** Votes delivered after a call. */
  ghost function Delivered<S, K, V>(c: Contract<S, K, V>, s: S, delivered: set<V>, k: K): set<V> {
    if c.vote(k).Some? && c.accepts(s, k) then delivered + {c.vote(k).value} else delivered
  }

  /** The run with every vote dropped that repeats one already delivered successfully. */
  ghost function Without<S, K, V>(c: Contract<S, K, V>, s: S, delivered: set<V>, calls: seq<K>): seq<K>
    decreases |calls|
  {
    if calls == [] then []
    else if c.vote(calls[0]).Some? && c.vote(calls[0]).value in delivered then Without(c, s, delivered, calls[1..])
    else [calls[0]] + Without(c, c.next(s, calls[0]), Delivered(c, s, delivered, calls[0]), calls[1..])
  }

  /** Nothing is left to drop. */
  lemma {:induction false} NothingLeft<S, K, V>(c: Contract<S, K, V>, s: S, delivered: set<V>, calls: seq<K>)
    ensures var kept := Without(c, s, delivered, calls); Without(c, s, delivered, kept) == kept
    decreases |calls|
  {
    if calls != [] {
      var k := calls[0];
      if c.vote(k).Some? && c.vote(k).value in delivered {
        NothingLeft(c, s, delivered, calls[1..]);
      } else {
        NothingLeft(c, c.next(s, k), Delivered(c, s, delivered, k), calls[1..]);
        var kept := Without(c, c.next(s, k), Delivered(c, s, delivered, k), calls[1..]);
        assert ([k] + kept)[1..] == kept;
      }
    }
  }

  /** Re-delivered votes, interleaved with anything else, leave the same state as if they had been sent
      once. */
  lemma {:induction false} Invisible<S(!new), K(!new), V(!new)>(
    c: Contract<S, K, V>, s: S, delivered: set<V>, calls: seq<K>)
    requires CountsOnce(c) && forall d :: d in delivered ==> c.recorded(s, d)
    ensures Run(c, s, Without(c, s, delivered, calls)) == Run(c, s, calls)
    decreases |calls|
  {
    if calls != [] {
      var k := calls[0];
      if c.vote(k).Some? && c.vote(k).value in delivered {
        Invisible(c, s, delivered, calls[1..]);
      } else {
        var (s', now) := (c.next(s, k), Delivered(c, s, delivered, k));
        Invisible(c, s', now, calls[1..]);
        assert ([k] + Without(c, s', now, calls[1..]))[1..] == Without(c, s', now, calls[1..]);
      }
    }
  }
}
