/** Counting votes, as both bridge contracts do it: a set of signatures, a stored counter per hash, and
    the hashes that are through. `A` is the type of a voter. */
module Tally {
  import opened Prelude
  import opened Requests

  datatype Poll<A(==)> = Poll(pending: map<Digest, nat>, signatures: set<(Digest, A)>, processed: set<Digest>)

  ghost function Signers<A>(signatures: set<(Digest, A)>, h: Digest): set<A> {
    set v | v in signatures && v.0 == h :: v.1
  }

  /** Every open hash counts exactly its signers, and what is through is not pending. */
  ghost predicate CountsOk<A>(p: Poll<A>) {
    && (forall h :: h !in p.processed ==> Get(p.pending, h, 0) == |Signers(p.signatures, h)|)
    && (forall h :: h in p.pending ==> h !in p.processed)
  }

  /** The two outcomes of a counted vote: one more pending signature, or the hash is through. */
  ghost predicate Counted<A>(p: Poll<A>, p': Poll<A>, h: Digest, a: A, threshold: nat) {
    && h !in p.processed && (h, a) !in p.signatures && p'.signatures == p.signatures + {(h, a)}
    && var count := Get(p.pending, h, 0) + 1;
       if count < threshold then p'.pending == p.pending[h := count] && p'.processed == p.processed
       else p'.pending == p.pending - {h} && p'.processed == p.processed + {h}
  }

  lemma SignersAfterVote<A>(signatures: set<(Digest, A)>, h: Digest, a: A)
    ensures var after := signatures + {(h, a)};
            && Signers(after, h) == Signers(signatures, h) + {a}
            && (forall g :: g != h ==> Signers(after, g) == Signers(signatures, g))
            && ((h, a) !in signatures ==> |Signers(after, h)| == |Signers(signatures, h)| + 1)
  {
    var after := signatures + {(h, a)};
    assert (h, a) in after;
    forall g, x | g != h ensures x in Signers(after, g) <==> x in Signers(signatures, g) {
      assert (g, x) in after <==> (g, x) in signatures;
    }
    if (h, a) !in signatures {
      assert a !in Signers(signatures, h);
    }
  }

  lemma CountKept<A>(p: Poll<A>, p': Poll<A>, h: Digest, a: A, threshold: nat, g: Digest)
    requires Counted(p, p', h, a, threshold) && g !in p'.processed
    requires g !in p.processed ==> Get(p.pending, g, 0) == |Signers(p.signatures, g)|
    ensures Get(p'.pending, g, 0) == |Signers(p'.signatures, g)|
  {
    SignersAfterVote(p.signatures, h, a);
    if g != h {
      assert g !in p.processed && Get(p'.pending, g, 0) == Get(p.pending, g, 0);
    }
  }

  lemma CountedKeepsCounts<A>(p: Poll<A>, p': Poll<A>, h: Digest, a: A, threshold: nat)
    requires CountsOk(p) && Counted(p, p', h, a, threshold)
    ensures CountsOk(p')
  {
    forall g | g !in p'.processed ensures Get(p'.pending, g, 0) == |Signers(p'.signatures, g)| {
      CountKept(p, p', h, a, threshold, g);
    }
  }
}
