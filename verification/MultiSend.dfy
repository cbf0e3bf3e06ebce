/** The packed-transaction loop of `MultiSend`: a cursor over a byte buffer in EVM memory. */
module MultiSend {
  import opened Prelude
  import opened Bytes

  datatype Tx = Tx(operation: byte, to: Address, value: U256, data: seq<byte>)

  /** Packed encoding: operation, address, value, length of the data, data. */
  function Encode(tx: Tx): (b: seq<byte>)
    ensures |b| == 85 + |tx.data|
  {
    [tx.operation] + BigEndian(tx.to, 20) + BigEndian(tx.value, 32) + BigEndian(|tx.data|, 32) + tx.data
  }

  function EncodeAll(txs: seq<Tx>): seq<byte> {
    if txs == [] then [] else EncodeAll(txs[..|txs| - 1]) + Encode(txs[|txs| - 1])
  }

  // ----- reading memory

  /** Bytes from an offset past the start of the buffer; memory never written to reads as zero. */
  function Slice(mem: seq<byte>, at: nat, n: nat): (b: seq<byte>)
    ensures |b| == n
  {
    seq(n, j requires 0 <= j => if at + j < |mem| then mem[at + j] else 0)
  }

  function Load(mem: seq<byte>, at: nat): U256 {
    FromBigEndianBounded(Slice(mem, at, 32));
    Widths();
    FromBigEndian(Slice(mem, at, 32))
  }

  lemma {:induction false} SplitValue(b: seq<byte>, k: nat)
    requires k <= |b|
    ensures FromBigEndian(b) == Pow256(|b| - k) * FromBigEndian(b[..k]) + FromBigEndian(b[k..])
    decreases |b|
  {
    if k == |b| {
      assert b[..k] == b;
    } else {
      var front := b[..|b| - 1];
      SplitValue(front, k);
      assert front[..k] == b[..k] && b[k..][..|b| - 1 - k] == front[k..];
      Regroup(Pow256(|front| - k), FromBigEndian(b[..k]), FromBigEndian(front[k..]));
    }
  }

  /** Shifting a loaded word right keeps its leading bytes. */
  lemma ShiftRight(b: seq<byte>, k: nat)
    requires k <= |b|
    ensures FromBigEndian(b) / Pow256(|b| - k) == FromBigEndian(b[..k])
  {
    SplitValue(b, k);
    FromBigEndianBounded(b[k..]);
    QuotientUnique(FromBigEndian(b), Pow256(|b| - k), FromBigEndian(b[..k]), FromBigEndian(b[k..]));
  }

  function DataLength(mem: seq<byte>, p: nat): U256 {
    Load(mem, p + 0x35)
  }

  /** The entry that starts at offset `p`. */
  function EntryAt(mem: seq<byte>, p: nat): Tx {
    FromBigEndianBounded(Slice(mem, p + 1, 20));
    Widths();
    Tx(Slice(mem, p, 1)[0], FromBigEndian(Slice(mem, p + 1, 20)), Load(mem, p + 0x15),
       Slice(mem, p + 0x55, DataLength(mem, p)))
  }

  /** Whole words are loaded and shifted down to the operation byte and the address. */
  lemma ShiftedLoads(mem: seq<byte>, p: nat)
    ensures Load(mem, p) / Pow256(31) == EntryAt(mem, p).operation
    ensures Load(mem, p + 1) / Pow256(12) == EntryAt(mem, p).to
  {
    var (word0, word1) := (Slice(mem, p, 32), Slice(mem, p + 1, 32));
    ShiftRight(word0, 1);
    ShiftRight(word1, 20);
    assert word0[..1] == [Slice(mem, p, 1)[0]] && word1[..20] == Slice(mem, p + 1, 20);
    assert FromBigEndian([word0[0]]) == word0[0] by { assert [word0[0]][..0] == []; }
  }

  lemma SliceConcat(mem: seq<byte>, p: nat, m: nat, n: nat)
    ensures Slice(mem, p, m + n) == Slice(mem, p, m) + Slice(mem, p + m, n)
  {
  }

  lemma SliceOf(mem: seq<byte>, p: nat, n: nat, at: nat, m: nat)
    requires at + m <= n
    ensures Slice(mem, p, n)[at..at + m] == Slice(mem, p + at, m)
  {
  }

  /** What was read is what is there: re-encoding the entry gives back the bytes. */
  lemma EntryBytes(mem: seq<byte>, p: nat)
    ensures Encode(EntryAt(mem, p)) == Slice(mem, p, 85 + DataLength(mem, p))
  {
    var n := DataLength(mem, p);
    FromBigEndianRoundTrip(Slice(mem, p + 1, 20));
    FromBigEndianRoundTrip(Slice(mem, p + 0x15, 32));
    FromBigEndianRoundTrip(Slice(mem, p + 0x35, 32));
    assert [Slice(mem, p, 1)[0]] == Slice(mem, p, 1);
    SliceConcat(mem, p, 1, 20);
    SliceConcat(mem, p, 21, 32);
    SliceConcat(mem, p, 53, 32);
    SliceConcat(mem, p, 85, n);
  }

  /** An entry that was written is read back. */
  lemma EntryRoundTrip(mem: seq<byte>, p: nat, tx: Tx)
    requires |tx.data| < U256_LIMIT && Slice(mem, p, 85 + |tx.data|) == Encode(tx)
    ensures EntryAt(mem, p) == tx && DataLength(mem, p) == |tx.data|
  {
    var all := Slice(mem, p, 85 + |tx.data|);
    Widths();
    SliceOf(mem, p, |all|, 0x35, 32);
    assert all[0x35..0x55] == BigEndian(|tx.data|, 32);
    BigEndianRoundTrip(|tx.data|, 32);
    EntryBytes(mem, p);
    SameEncoding(EntryAt(mem, p), tx);
  }

  lemma SameEncoding(a: Tx, b: Tx)
    requires Encode(a) == Encode(b) && |a.data| == |b.data|
    ensures a == b
  {
    Widths();
    var (x, y) := (Encode(a), Encode(b));
    assert x[0] == a.operation && y[0] == b.operation;
    assert x[1..21] == BigEndian(a.to, 20) && y[1..21] == BigEndian(b.to, 20);
    assert x[21..53] == BigEndian(a.value, 32) && y[21..53] == BigEndian(b.value, 32);
    assert x[85..] == a.data && y[85..] == b.data;
    BigEndianRoundTrip(a.to, 20);
    BigEndianRoundTrip(b.to, 20);
    BigEndianRoundTrip(a.value, 32);
    BigEndianRoundTrip(b.value, 32);
  }

  // ----- the loop

  /** What the calls answer: whether a transaction succeeds after the ones before it. */
  type Outcomes = (seq<Tx>, Tx) -> bool

  /** One turn of the loop: the transaction executed, or `None` when everything is reverted. Call data
      beyond `limit` costs more gas than there is. */
  function Turn(mem: seq<byte>, limit: nat, outcomes: Outcomes, p: nat, done: seq<Tx>): (r: Option<Tx>)
    ensures r.Some? ==> p + 85 <= p + 85 + |r.value.data| <= limit
  {
    if p + 0x55 + DataLength(mem, p) > limit then None
    else
      var tx := EntryAt(mem, p);
      if tx.operation > 1 || !outcomes(done, tx) then None else Some(tx)
  }

  /** The transactions executed from offset `p` on, after `done`. The cursor is 0x20 + p and is compared
      with the unshifted length. */
  function Batch(mem: seq<byte>, length: nat, limit: nat, outcomes: Outcomes, p: nat, done: seq<Tx>): Option<seq<Tx>>
    requires p <= limit
    decreases limit - p
  {
    if 0x20 + p >= length then Some(done)
    else match Turn(mem, limit, outcomes, p, done)
      case None => None
      case Some(tx) => Batch(mem, length, limit, outcomes, p + 0x55 + |tx.data|, done + [tx])
  }

  /** The body of the loop, as the assembly reads memory and adds to the cursor. */
  method TakeTurn(mem: seq<byte>, limit: nat, outcomes: Outcomes, i: nat, done: seq<Tx>)
    returns (r: Option<Tx>, next: U256)
    requires 0x20 <= i && limit + 0x20 < U256_LIMIT
    ensures r == Turn(mem, limit, outcomes, i - 0x20, done)
    ensures r.Some? ==> next == i + 0x55 + |r.value.data|
  {
    next := 0;
    var tx, dataLength := ReadEntry(mem, i - 0x20);
    if i - 0x20 + 0x55 + dataLength > limit { return None, next; }
    var success := false;
    if tx.operation == 0 || tx.operation == 1 {
      success := outcomes(done, tx);
    }
    if !success { return None, next; }
    next := Wrapped(i + Wrapped(0x55 + dataLength));
    return Some(tx), next;
  }

  method ReadEntry(mem: seq<byte>, p: nat) returns (tx: Tx, dataLength: U256)
    ensures tx == EntryAt(mem, p) && dataLength == DataLength(mem, p) == |tx.data|
  {
    ShiftedLoads(mem, p);
    var operation := Load(mem, p) / Pow256(31);
    var to := Load(mem, p + 1) / Pow256(12);
    var value := Load(mem, p + 0x15);
    dataLength := Load(mem, p + 0x35);
    tx := Tx(operation, to, value, Slice(mem, p + 0x55, dataLength));
  }

  /** EVM addition. */
  function Wrapped(x: nat): U256 {
    x % U256_LIMIT
  }

  /** Called on the deployed library itself it reverts; by delegate call it runs the batch. */
  method MultiSend(self: Address, singleton: Address, mem: seq<byte>, length: nat, limit: nat, outcomes: Outcomes)
    returns (r: Option<seq<Tx>>)
    requires limit + 0x20 < U256_LIMIT
    ensures r == if self == singleton then None else Batch(mem, length, limit, outcomes, 0, [])
  {
    if self == singleton { return None; }
    var i := 0x20;
    var executed: seq<Tx> := [];
    while i < length
      invariant 0x20 <= i <= limit + 0x20
      invariant Batch(mem, length, limit, outcomes, i - 0x20, executed) == Batch(mem, length, limit, outcomes, 0, [])
      decreases limit + 0x20 - i
    {
      var tx, next := TakeTurn(mem, limit, outcomes, i, executed);
      if tx.None? { return None; }
      executed := executed + [tx.value];
      i := next;
    }
    r := Some(executed);
  }

  // ----- round trip

  ghost predicate Sendable(txs: seq<Tx>) {
    forall k :: 0 <= k < |txs| ==> txs[k].operation <= 1 && |txs[k].data| < U256_LIMIT
  }

  /** Every call from the k-th on succeeds after the ones before it. */
  ghost predicate AllSucceed(outcomes: Outcomes, txs: seq<Tx>, k: nat)
    requires k <= |txs|
    decreases |txs| - k
  {
    k < |txs| ==> outcomes(txs[..k], txs[k]) && AllSucceed(outcomes, txs, k + 1)
  }

  lemma {:induction false} EncodeAllParts(txs: seq<Tx>, k: nat)
    requires k < |txs|
    ensures |EncodeAll(txs[..k])| + |Encode(txs[k])| == |EncodeAll(txs[..k + 1])| <= |EncodeAll(txs)|
    ensures EncodeAll(txs)[|EncodeAll(txs[..k])|..|EncodeAll(txs[..k])| + |Encode(txs[k])|] == Encode(txs[k])
    decreases |txs|
  {
    var front := txs[..|txs| - 1];
    assert txs[..k + 1][..k] == txs[..k];
    if k == |front| {
      assert txs[..k + 1] == txs;
    } else {
      EncodeAllParts(front, k);
      assert front[..k] == txs[..k] && front[..k + 1] == txs[..k + 1];
    }
  }

  /** Where the k-th entry of the encoding starts. */
  function Offset(txs: seq<Tx>, k: nat): nat
    requires k <= |txs|
  {
    |EncodeAll(txs[..k])|
  }

  lemma Offsets(txs: seq<Tx>, k: nat)
    requires k <= |txs|
    ensures Offset(txs, k) <= |EncodeAll(txs)|
    ensures k == |txs| ==> Offset(txs, k) == |EncodeAll(txs)|
  {
    if k < |txs| {
      EncodeAllParts(txs, k);
    } else {
      assert txs[..k] == txs;
    }
  }

  lemma SliceInside(all: seq<byte>, mem: seq<byte>, p: nat, n: nat)
    requires all <= mem && p + n <= |all|
    ensures Slice(mem, p, n) == all[p..p + n]
  {
  }

  lemma TurnReads(mem: seq<byte>, limit: nat, outcomes: Outcomes, p: nat, done: seq<Tx>, tx: Tx)
    requires tx.operation <= 1 && |tx.data| < U256_LIMIT && p + 85 + |tx.data| <= limit
    requires Slice(mem, p, 85 + |tx.data|) == Encode(tx)
    ensures Turn(mem, limit, outcomes, p, done) == if outcomes(done, tx) then Some(tx) else None
  {
    EntryRoundTrip(mem, p, tx);
  }

  lemma TurnOnEncoding(txs: seq<Tx>, mem: seq<byte>, limit: nat, outcomes: Outcomes, k: nat)
    requires Sendable(txs) && k < |txs| && EncodeAll(txs) <= mem && |EncodeAll(txs)| <= limit
    ensures Offset(txs, k + 1) == Offset(txs, k) + 85 + |txs[k].data| <= |EncodeAll(txs)|
    ensures Turn(mem, limit, outcomes, Offset(txs, k), txs[..k])
            == if outcomes(txs[..k], txs[k]) then Some(txs[k]) else None
  {
    var (all, p, tx) := (EncodeAll(txs), Offset(txs, k), txs[k]);
    EncodeAllParts(txs, k);
    SliceInside(all, mem, p, 85 + |tx.data|);
    TurnReads(mem, limit, outcomes, p, txs[..k], tx);
  }

  lemma OneTurn(mem: seq<byte>, length: nat, limit: nat, outcomes: Outcomes, p: nat, done: seq<Tx>, tx: Tx)
    requires 0x20 + p < length && p + 0x55 + |tx.data| <= limit
    requires Turn(mem, limit, outcomes, p, done) == if outcomes(done, tx) then Some(tx) else None
    ensures Batch(mem, length, limit, outcomes, p, done)
            == if outcomes(done, tx) then Batch(mem, length, limit, outcomes, p + 0x55 + |tx.data|, done + [tx])
              else None
  {
  }

  /** One entry is executed and the cursor moves to the next, or the batch reverts. */
  lemma BatchStep(txs: seq<Tx>, mem: seq<byte>, length: nat, limit: nat, outcomes: Outcomes, k: nat)
    requires Sendable(txs) && k < |txs| && EncodeAll(txs) <= mem && |EncodeAll(txs)| <= limit
    requires |EncodeAll(txs)| <= length
    ensures Offset(txs, k) <= Offset(txs, k + 1) <= limit
    ensures Batch(mem, length, limit, outcomes, Offset(txs, k), txs[..k])
            == if outcomes(txs[..k], txs[k])
               then Batch(mem, length, limit, outcomes, Offset(txs, k + 1), txs[..k + 1]) else None
  {
    TurnOnEncoding(txs, mem, limit, outcomes, k);
    OneTurn(mem, length, limit, outcomes, Offset(txs, k), txs[..k], txs[k]);
    assert txs[..k + 1] == txs[..k] + [txs[k]];
  }

  lemma {:induction false} BatchFrom(txs: seq<Tx>, mem: seq<byte>, length: nat, limit: nat, outcomes: Outcomes, k: nat)
    requires Sendable(txs) && k <= |txs| && EncodeAll(txs) <= mem && |EncodeAll(txs)| <= limit
    requires |EncodeAll(txs)| <= length <= |EncodeAll(txs)| + 32
    ensures Offset(txs, k) <= |EncodeAll(txs)|
    ensures Batch(mem, length, limit, outcomes, Offset(txs, k), txs[..k])
            == if AllSucceed(outcomes, txs, k) then Some(txs) else None
    decreases |txs| - k
  {
    Offsets(txs, k);
    if k == |txs| {
      assert txs[..k] == txs;
    } else {
      BatchStep(txs, mem, length, limit, outcomes, k);
      BatchFrom(txs, mem, length, limit, outcomes, k + 1);
    }
  }

  /** For every list of transactions with operation 0 or 1, and any memory behind them, the loop over
      the packed encoding executes exactly that list in order, or reverts if one of the calls fails.
      Since every entry takes at least 85 bytes, the shifted cursor stops exactly at the end; up to 32
      further bytes counted into the length go unnoticed. */
  lemma BatchRoundTrip(txs: seq<Tx>, behind: seq<byte>, extra: nat, limit: nat, outcomes: Outcomes)
    requires Sendable(txs) && extra <= 32 && |EncodeAll(txs)| <= limit
    ensures Batch(EncodeAll(txs) + behind, |EncodeAll(txs)| + extra, limit, outcomes, 0, [])
            == if AllSucceed(outcomes, txs, 0) then Some(txs) else None
  {
    BatchFrom(txs, EncodeAll(txs) + behind, |EncodeAll(txs)| + extra, limit, outcomes, 0);
    assert txs[..0] == [];
  }

  lemma TurnBytes(mem: seq<byte>, limit: nat, outcomes: Outcomes, p: nat, done: seq<Tx>)
    requires Turn(mem, limit, outcomes, p, done).Some? && EncodeAll(done) == Slice(mem, 0, p)
    ensures var tx := Turn(mem, limit, outcomes, p, done).value;
            tx.operation <= 1 && outcomes(done, tx) && EncodeAll(done + [tx]) == Slice(mem, 0, p + 85 + |tx.data|)
  {
    var tx := EntryAt(mem, p);
    EntryBytes(mem, p);
    SliceConcat(mem, 0, p, |Encode(tx)|);
    assert (done + [tx])[..|done|] == done;
  }

  /** Conversely, whatever a batch executed was spelled out in memory, entry after entry from the start
      of the buffer, with at most 32 bytes of the stated length left unread. */
  lemma {:induction false} BatchSound(mem: seq<byte>, length: nat, limit: nat, outcomes: Outcomes, p: nat,
                                      done: seq<Tx>)
    requires p <= limit && Batch(mem, length, limit, outcomes, p, done).Some?
    requires EncodeAll(done) == Slice(mem, 0, p) && forall k :: 0 <= k < |done| ==> done[k].operation <= 1
    ensures var txs := Batch(mem, length, limit, outcomes, p, done).value;
            && done <= txs && (forall k :: 0 <= k < |txs| ==> txs[k].operation <= 1)
            && EncodeAll(txs) == Slice(mem, 0, |EncodeAll(txs)|) && |EncodeAll(txs)| + 32 >= length
            && AllSucceed(outcomes, txs, |done|)
    decreases limit - p
  {
    if 0x20 + p < length {
      var tx := Turn(mem, limit, outcomes, p, done).value;
      TurnBytes(mem, limit, outcomes, p, done);
      BatchSound(mem, length, limit, outcomes, p + 0x55 + |tx.data|, done + [tx]);
      var txs := Batch(mem, length, limit, outcomes, p, done).value;
      assert txs[..|done|] == done && txs[|done|] == tx;
    }
  }
}
