/** The wrapped-ether ledger behind the bridge's native path. Its arithmetic is unchecked; what rules
    out wrap-around is that the balances never add up to more than the ether held. */
module Weth9 {
  import opened Prelude
  import opened Bytes

  type Balances = map<Address, U256>

  const MAX_UINT: U256 := U256_LIMIT - 1

  function WrapAdd(a: U256, b: U256): U256 {
    (a + b) % U256_LIMIT
  }

  function WrapSub(a: U256, b: U256): U256 {
    (a - b) % U256_LIMIT
  }

  function Of(m: Balances, a: Address): U256 {
    Get(m, a, 0)
  }

  /** Crediting what the total leaves room for does not wrap, and grows the total by the amount. */
  lemma Credit(m: Balances, a: Address, wad: U256)
    requires SumMap(m) + wad < U256_LIMIT
    ensures WrapAdd(Of(m, a), wad) == Of(m, a) + wad
    ensures SumMap(m[a := WrapAdd(Of(m, a), wad)]) == SumMap(m) + wad
  {
    SumMapHolds(m, a);
    SumMapUpdate(m, a, WrapAdd(Of(m, a), wad));
  }

  /** Debiting what is there does not wrap, and shrinks the total by the amount. */
  lemma Debit(m: Balances, a: Address, wad: U256)
    requires wad <= Of(m, a)
    ensures WrapSub(Of(m, a), wad) == Of(m, a) - wad
    ensures SumMap(m[a := WrapSub(Of(m, a), wad)]) == SumMap(m) - wad
  {
    SumMapUpdate(m, a, WrapSub(Of(m, a), wad));
  }

  /** Debit, then credit: the total stays, also when source and destination are the same account. */
  function Moved(m: Balances, src: Address, dst: Address, wad: U256): Balances {
    var debited := m[src := WrapSub(Of(m, src), wad)];
    debited[dst := WrapAdd(Of(debited, dst), wad)]
  }

  lemma MoveConserves(m: Balances, src: Address, dst: Address, wad: U256)
    requires wad <= Of(m, src) && SumMap(m) < U256_LIMIT
    ensures SumMap(Moved(m, src, dst, wad)) == SumMap(m)
    ensures src != dst ==> Of(Moved(m, src, dst, wad), src) == Of(m, src) - wad
                           && Of(Moved(m, src, dst, wad), dst) == Of(m, dst) + wad
    ensures src == dst ==> Of(Moved(m, src, dst, wad), src) == Of(m, src)
    ensures forall a :: a != src && a != dst ==> Of(Moved(m, src, dst, wad), a) == Of(m, a)
  {
    var debited := m[src := WrapSub(Of(m, src), wad)];
    Debit(m, src, wad);
    Credit(debited, dst, wad);
  }

  datatype Call =
    | Deposit(value: U256)
    | Withdraw(amount: U256, payOk: bool)
    | Approve(guy: Address, allowance: U256)
    | TransferFrom(src: Address, dst: Address, wad: U256)
    | Force(ether: U256)

  class Weth {
    var balanceOf: Balances
    var allowance: map<(Address, Address), U256>
    /** Ether held by the contract. */
    var held: nat
    /** Ether that arrived without calling it. */
    ghost var forced: nat

    /** Every unit of balance is backed by a unit of ether, and the rest was forced in. */
    ghost predicate Backed()
      reads this
    {
      SumMap(balanceOf) + forced == held < U256_LIMIT
    }

    constructor ()
      ensures Backed() && balanceOf == map[] && allowance == map[] && held == 0 && forced == 0
    {
      balanceOf, allowance, held, forced := map[], map[], 0, 0;
    }

    /** The value sent exists as ether, so it fits next to what the contract holds. */
    method Deposit(caller: Address, value: U256)
      requires Backed() && held + value < U256_LIMIT
      modifies this
      ensures Backed() && held == old(held) + value && forced == old(forced) && allowance == old(allowance)
      ensures Of(balanceOf, caller) == Of(old(balanceOf), caller) + value
      ensures forall a :: a != caller ==> Of(balanceOf, a) == Of(old(balanceOf), a)
    {
      Credit(balanceOf, caller, value);
      balanceOf := balanceOf[caller := WrapAdd(Of(balanceOf, caller), value)];
      held := held + value;
    }

    /** Fails, changing nothing, exactly when the balance is short or the receiver refuses the ether:
        the contract itself is never short of it. */
    method Withdraw(caller: Address, wad: U256, payOk: bool) returns (ok: bool)
      requires Backed()
      modifies this
      ensures Backed() && forced == old(forced) && allowance == old(allowance)
      ensures ok <==> wad <= Of(old(balanceOf), caller) && payOk
      ensures ok ==> held == old(held) - wad && balanceOf == old(balanceOf)[caller := Of(old(balanceOf), caller) - wad]
      ensures !ok ==> held == old(held) && balanceOf == old(balanceOf)
    {
      if Of(balanceOf, caller) < wad { return false; }
      SumMapHolds(balanceOf, caller);
      if !payOk || held < wad { return false; }
      Debit(balanceOf, caller, wad);
      balanceOf := balanceOf[caller := WrapSub(Of(balanceOf, caller), wad)];
      held := held - wad;
      return true;
    }

    method Approve(caller: Address, guy: Address, wad: U256)
      requires Backed()
      modifies this`allowance
      ensures Backed() && allowance == old(allowance)[(caller, guy) := wad]
    {
      allowance := allowance[(caller, guy) := wad];
    }

    method TransferFrom(caller: Address, src: Address, dst: Address, wad: U256) returns (ok: bool)
      requires Backed()
      modifies this
      ensures Backed() && held == old(held) && forced == old(forced)
      ensures var allowed := Get(old(allowance), (src, caller), 0);
              ok <==> wad <= Of(old(balanceOf), src) && (src == caller || allowed == MAX_UINT || wad <= allowed)
      ensures ok && src != dst ==> Of(balanceOf, src) == Of(old(balanceOf), src) - wad
                                   && Of(balanceOf, dst) == Of(old(balanceOf), dst) + wad
      ensures !ok || src == dst ==> forall a :: Of(balanceOf, a) == Of(old(balanceOf), a)
      ensures forall a :: a != src && a != dst ==> Of(balanceOf, a) == Of(old(balanceOf), a)
      ensures var allowed := Get(old(allowance), (src, caller), 0);
              allowance == if ok && src != caller && allowed != MAX_UINT
                           then old(allowance)[(src, caller) := allowed - wad] else old(allowance)
    {
      if Of(balanceOf, src) < wad { return false; }
      var allowed := Get(allowance, (src, caller), 0);
      if src != caller && allowed != MAX_UINT {
        if allowed < wad { return false; }
        allowance := allowance[(src, caller) := WrapSub(allowed, wad)];
      }
      Move(src, dst, wad);
      return true;
    }

    method Move(src: Address, dst: Address, wad: U256)
      requires Backed() && wad <= Of(balanceOf, src)
      modifies this`balanceOf
      ensures Backed() && balanceOf == Moved(old(balanceOf), src, dst, wad)
      ensures src != dst ==> Of(balanceOf, src) == Of(old(balanceOf), src) - wad
                             && Of(balanceOf, dst) == Of(old(balanceOf), dst) + wad
      ensures src == dst ==> forall a :: Of(balanceOf, a) == Of(old(balanceOf), a)
      ensures forall a :: a != src && a != dst ==> Of(balanceOf, a) == Of(old(balanceOf), a)
    {
      MoveConserves(balanceOf, src, dst, wad);
      balanceOf := balanceOf[src := WrapSub(Of(balanceOf, src), wad)];
      balanceOf := balanceOf[dst := WrapAdd(Of(balanceOf, dst), wad)];
    }

    /** Ether can be pushed to the contract without running its code. */
    method Force(value: U256)
      requires Backed() && held + value < U256_LIMIT
      modifies this`held, this`forced
      ensures Backed() && held == old(held) + value && forced == old(forced) + value
    {
      held, forced := held + value, forced + value;
    }

    /** Conservation over every call sequence: the balances add up to the ether held minus what was
        forced in. Calls with more ether than can exist do not occur. */
    method Replay(calls: seq<(Address, Call)>)
      requires Backed()
      modifies this
      ensures SumMap(balanceOf) + forced == held && SumMap(balanceOf) <= held < U256_LIMIT
    {
      for i := 0 to |calls|
        invariant Backed()
      {
        var (caller, c) := calls[i];
        match c {
          case Deposit(value) =>
            if held + value < U256_LIMIT { Deposit(caller, value); }
          case Withdraw(wad, payOk) =>
            var _ := Withdraw(caller, wad, payOk);
          case Approve(guy, wad) =>
            Approve(caller, guy, wad);
          case TransferFrom(src, dst, wad) =>
            var _ := TransferFrom(caller, src, dst, wad);
          case Force(value) =>
            if held + value < U256_LIMIT { Force(value); }
        }
      }
    }
  }
}
