/** `OwnerManager` and `ModuleManager` of the Gnosis Safe that governs the bridge on Ethereum. */
module SafeOwners {
  import opened Prelude
  import opened Bytes
  import opened SentinelList

  /** The revert codes of the contracts. */
  datatype Code = GS031 | GS101 | GS102 | GS103 | GS200 | GS201 | GS202 | GS203 | GS204 | GS205

  ghost predicate Eligible(list: seq<Address>, self: Address) {
    Proper(list) && self !in list
  }

  lemma RepeatedIsImproper(owners: seq<Address>, i: nat)
    requires i < |owners| && owners[i] in owners[..i]
    ensures !Proper(owners)
  {
    var j :| 0 <= j < i && owners[j] == owners[i];
  }

  /** The first `i` owners hang on the chain, and `current` is the last of them. */
  ghost predicate Built(links: Links, owners: seq<Address>, i: nat, self: Address, current: Address) {
    i <= |owners| && OpenChain(links, owners[..i]) && self !in owners[..i] && current == Last(owners[..i])
  }

  /** One turn of the loop: the next owner is refused only where the list is not eligible, and is
      hung on otherwise. */
  lemma TurnKeeps(links: Links, owners: seq<Address>, i: nat, self: Address, current: Address)
    requires Built(links, owners, i, self, current) && i < |owners|
    ensures var owner := owners[i];
            if owner == ZERO || owner == SENTINEL || owner == self || current == owner || At(links, owner) != ZERO
            then !Eligible(owners, self) else Built(links[current := owner], owners, i + 1, self, owner)
  {
    var (owner, done) := (owners[i], owners[..i]);
    assert owner in owners && owners[..i + 1] == done + [owner];
    if owner != ZERO && owner != SENTINEL && owner != self {
      ChainStep(links, done, owner);
      if current == owner || At(links, owner) != ZERO {
        RepeatedIsImproper(owners, i);
      }
    }
  }

  lemma BuiltAll(links: Links, owners: seq<Address>, self: Address, current: Address)
    requires Built(links, owners, |owners|, self, current)
    ensures Eligible(owners, self) && Linked(links[current := SENTINEL], owners)
  {
    assert owners[..|owners|] == owners;
    CloseChain(links, owners);
  }

  /** The loop of `setupOwners`: a repeated owner is caught either as the current one (it has no link
      yet) or by its link, so exactly the lists of distinct proper owners get through. */
  method LinkAll(blank: Links, owners: seq<Address>, self: Address) returns (r: Result<Links, Code>)
    requires forall a: Address :: At(blank, a) == ZERO
    ensures r.Ok? <==> Eligible(owners, self)
    ensures r.Ok? ==> Linked(r.value, owners)
    ensures r.Err? ==> r.error in {GS203, GS204}
  {
    var current := SENTINEL;
    var links: Links := blank;
    for i := 0 to |owners|
      invariant Built(links, owners, i, self, current)
    {
      var owner := owners[i];
      TurnKeeps(links, owners, i, self, current);
      if owner == ZERO || owner == SENTINEL || owner == self || current == owner { return Err(GS203); }
      if At(links, owner) != ZERO { return Err(GS204); }
      links := links[current := owner];
      current := owner;
    }
    BuiltAll(links, owners, self, current);
    r := Ok(links[current := SENTINEL]);
  }

  // ----- owner operations on the list itself

  /** An owner operation, as a Safe transaction would carry it out. */
  datatype Op =
    | Add(owner: Address, threshold: nat)
    | Remove(prev: Address, owner: Address, threshold: nat)
    | Swap(prev: Address, oldOwner: Address, newOwner: Address)
    | Change(threshold: nat)

  /** Distinct proper owners and a threshold they can reach. */
  ghost predicate Governable(list: seq<Address>, threshold: nat, self: Address) {
    Eligible(list, self) && 1 <= threshold <= |list|
  }

  ghost predicate Newcomer(list: seq<Address>, self: Address, owner: Address) {
    owner != ZERO && owner != SENTINEL && owner != self && owner !in list
  }

  /** Owners and threshold after an operation; one that is refused changes nothing. */
  ghost function Changed(list: seq<Address>, threshold: nat, self: Address, caller: Address, op: Op)
    : (seq<Address>, nat)
  {
    if caller != self then (list, threshold)
    else match op
      case Add(owner, t) =>
        if Newcomer(list, self, owner) && 1 <= t <= |list| + 1 then ([owner] + list, t) else (list, threshold)
      case Remove(prev, owner, t) =>
        if 1 <= t <= |list| - 1 && exists k :: Precedes(list, prev, owner, k) then
          var k :| Precedes(list, prev, owner, k);
          (Without(list, k), t)
        else (list, threshold)
      case Swap(prev, oldOwner, newOwner) =>
        if Newcomer(list, self, newOwner) && exists k :: Precedes(list, prev, oldOwner, k) then
          var k :| Precedes(list, prev, oldOwner, k);
          (list[k := newOwner], threshold)
        else (list, threshold)
      case Change(t) => if 1 <= t <= |list| then (list, t) else (list, threshold)
  }

  /** The revert code tells the truth about the operation. */
  ghost predicate TrueCode(list: seq<Address>, self: Address, caller: Address, op: Op, code: Code) {
    match code
    case GS031 => caller != self
    case GS201 =>
      || (op.Add? && op.threshold > |list| + 1) || (op.Remove? && op.threshold > |list| - 1)
      || (op.Change? && op.threshold > |list|)
    case GS202 => !op.Swap? && op.threshold < 1
    case GS203 =>
      || (op.Add? && op.owner in {ZERO, SENTINEL, self}) || (op.Remove? && op.owner in {ZERO, SENTINEL})
      || (op.Swap? && (op.newOwner in {ZERO, SENTINEL, self} || op.oldOwner in {ZERO, SENTINEL}))
    case GS204 => (op.Add? && op.owner in list) || (op.Swap? && op.newOwner in list)
    case GS205 =>
      || (op.Remove? && !exists k :: Precedes(list, op.prev, op.owner, k))
      || (op.Swap? && !exists k :: Precedes(list, op.prev, op.oldOwner, k))
    case _ => false
  }

  lemma PrecedesOnce(list: seq<Address>, prev: Address, owner: Address, j: int, k: int)
    requires Distinct(list) && Precedes(list, prev, owner, j) && Precedes(list, prev, owner, k)
    ensures j == k
  {
  }

  /** Every operation leaves owners that can govern. */
  lemma ChangedStaysGovernable(list: seq<Address>, threshold: nat, self: Address, caller: Address, op: Op)
    requires Governable(list, threshold, self)
    ensures var (list', threshold') := Changed(list, threshold, self, caller, op);
            Governable(list', threshold', self)
  {
    var (list', threshold') := Changed(list, threshold, self, caller, op);
    if list' != list {
      match op
      case Add(owner, t) =>
      case Change(t) =>
      case Remove(prev, owner, t) =>
        var k :| Precedes(list, prev, owner, k) && list' == Without(list, k);
        WithoutElements(list, k);
      case Swap(prev, oldOwner, newOwner) =>
        var k :| Precedes(list, prev, oldOwner, k) && list' == list[k := newOwner];
        UpdatedElements(list, k, newOwner);
    }
  }

  ghost function AfterOps(list: seq<Address>, threshold: nat, self: Address, caller: Address, ops: seq<Op>)
    : (seq<Address>, nat)
    decreases |ops|
  {
    if ops == [] then (list, threshold) else
      var (list', threshold') := Changed(list, threshold, self, caller, ops[0]);
      AfterOps(list', threshold', self, caller, ops[1..])
  }

  class OwnerManager {
    const self: Address
    var owners: Links
    var ownerCount: nat
    var threshold: nat
    ghost var list: seq<Address>

    /** Before setup: no links, no owners, threshold zero. */
    ghost predicate Blank()
      reads this
    {
      threshold == 0 && ownerCount == 0 && list == [] && forall a: Address :: At(owners, a) == ZERO
    }

    /** After setup: one duplicate-free cycle through the sentinel, of the recorded length, and a
        threshold that the owners can reach. */
    ghost predicate Ready()
      reads this
    {
      && Linked(owners, list) && self !in list
      && ownerCount == |list| && 1 <= threshold <= ownerCount
    }

    constructor (self: Address)
      ensures Blank() && this.self == self
    {
      this.self := self;
      owners, ownerCount, threshold, list := map[], 0, 0, [];
    }

    /** `setupOwners` succeeds, once, exactly on a reachable threshold over distinct proper owners. */
    method SetupOwners(newOwners: seq<Address>, newThreshold: nat) returns (r: Result<(), Code>)
      requires Blank() || Ready()
      modifies this
      ensures old(Ready()) ==> r == Err(GS200)
      ensures old(Blank()) ==> (r.Ok? <==> 1 <= newThreshold <= |newOwners| && Eligible(newOwners, self))
      ensures r.Ok? ==> Ready() && list == newOwners && threshold == newThreshold
      ensures r == Err(GS200) ==> old(Ready())
      ensures r == Err(GS201) ==> newThreshold > |newOwners|
      ensures r == Err(GS202) ==> newThreshold < 1
      ensures r.Err? && r.error !in {GS200, GS201, GS202} ==> r.error in {GS203, GS204} && !Eligible(newOwners, self)
      ensures r.Err? ==> owners == old(owners) && ownerCount == old(ownerCount)
                         && threshold == old(threshold) && list == old(list)
    {
      if threshold != 0 { return Err(GS200); }
      if newThreshold > |newOwners| { return Err(GS201); }
      if newThreshold < 1 { return Err(GS202); }
      var links := LinkAll(owners, newOwners, self);
      if links.Err? { return Err(links.error); }
      owners := links.value;
      ownerCount, threshold, list := |newOwners|, newThreshold, newOwners;
      return Ok(());
    }

    method AddOwnerWithThreshold(caller: Address, owner: Address, newThreshold: nat) returns (r: Result<(), Code>)
      requires Ready()
      modifies this
      ensures Ready()
      ensures r.Ok? <==> caller == self && owner != ZERO && owner != SENTINEL && owner != self
                         && owner !in old(list) && 1 <= newThreshold <= |old(list)| + 1
      ensures r.Ok? ==> list == [owner] + old(list) && threshold == newThreshold
      ensures r.Err? ==> TrueCode(old(list), self, caller, Add(owner, newThreshold), r.error)
      ensures r.Err? ==> list == old(list) && threshold == old(threshold) && owners == old(owners)
    {
      if caller != self { return Err(GS031); }
      if owner == ZERO || owner == SENTINEL || owner == self { return Err(GS203); }
      MemberIsLinked(owners, list, owner);
      if At(owners, owner) != ZERO { return Err(GS204); }
      if threshold != newThreshold {
        if newThreshold > ownerCount + 1 { return Err(GS201); }
        if newThreshold < 1 { return Err(GS202); }
      }
      LinkFront(owners, list, owner);
      owners := owners[owner := At(owners, SENTINEL)][SENTINEL := owner];
      ownerCount, list := ownerCount + 1, [owner] + list;
      threshold := newThreshold;
      return Ok(());
    }

    method RemoveOwner(caller: Address, prev: Address, owner: Address, newThreshold: nat) returns (r: Result<(), Code>)
      requires Ready()
      modifies this
      ensures Ready()
      ensures r.Ok? <==> caller == self && 1 <= newThreshold <= |old(list)| - 1
                         && exists k :: Precedes(old(list), prev, owner, k)
      ensures r.Ok? ==> threshold == newThreshold
                        && exists k :: Precedes(old(list), prev, owner, k) && list == Without(old(list), k)
      ensures r.Err? ==> TrueCode(old(list), self, caller, Remove(prev, owner, newThreshold), r.error)
      ensures r.Err? ==> list == old(list) && threshold == old(threshold) && owners == old(owners)
    {
      OnlyLinksPrecede(owners, list, prev, owner);
      if caller != self { return Err(GS031); }
      if ownerCount - 1 < newThreshold { return Err(GS201); }
      if owner == ZERO || owner == SENTINEL { return Err(GS203); }
      if At(owners, prev) != owner { return Err(GS205); }
      if threshold != newThreshold && newThreshold < 1 { return Err(GS202); }
      ghost var k :| Precedes(list, prev, owner, k);
      Unlink(owners, list, k);
      WithoutElements(list, k);
      owners := owners[prev := At(owners, owner)][owner := ZERO];
      ownerCount, list := ownerCount - 1, Without(list, k);
      threshold := newThreshold;
      return Ok(());
    }

    method SwapOwner(caller: Address, prev: Address, oldOwner: Address, newOwner: Address) returns (r: Result<(), Code>)
      requires Ready()
      modifies this
      ensures Ready() && threshold == old(threshold)
      ensures r.Ok? <==> caller == self && newOwner != ZERO && newOwner != SENTINEL && newOwner != self
                         && newOwner !in old(list) && exists k :: Precedes(old(list), prev, oldOwner, k)
      ensures r.Ok? ==> exists k :: Precedes(old(list), prev, oldOwner, k) && list == old(list)[k := newOwner]
      ensures r.Err? ==> TrueCode(old(list), self, caller, Swap(prev, oldOwner, newOwner), r.error)
      ensures r.Err? ==> list == old(list) && owners == old(owners)
    {
      OnlyLinksPrecede(owners, list, prev, oldOwner);
      if caller != self { return Err(GS031); }
      if newOwner == ZERO || newOwner == SENTINEL || newOwner == self { return Err(GS203); }
      MemberIsLinked(owners, list, newOwner);
      if At(owners, newOwner) != ZERO { return Err(GS204); }
      if oldOwner == ZERO || oldOwner == SENTINEL { return Err(GS203); }
      if At(owners, prev) != oldOwner { return Err(GS205); }
      ghost var k :| Precedes(list, prev, oldOwner, k);
      Replace(owners, list, k, newOwner);
      UpdatedElements(list, k, newOwner);
      owners := owners[newOwner := At(owners, oldOwner)][prev := newOwner][oldOwner := ZERO];
      list := list[k := newOwner];
      return Ok(());
    }

    method ChangeThreshold(caller: Address, newThreshold: nat) returns (r: Result<(), Code>)
      requires Ready()
      modifies this
      ensures Ready() && list == old(list) && owners == old(owners)
      ensures r.Ok? <==> caller == self && 1 <= newThreshold <= |list|
      ensures threshold == if r.Ok? then newThreshold else old(threshold)
      ensures r.Err? ==> TrueCode(old(list), self, caller, Change(newThreshold), r.error)
    {
      if caller != self { return Err(GS031); }
      if newThreshold > ownerCount { return Err(GS201); }
      if newThreshold < 1 { return Err(GS202); }
      threshold := newThreshold;
      return Ok(());
    }

    method IsOwner(a: Address) returns (b: bool)
      requires Ready()
      ensures b <==> a in list
    {
      if a != SENTINEL {
        MemberIsLinked(owners, list, a);
      }
      b := a != SENTINEL && At(owners, a) != ZERO;
    }

    /** The walk stays within the array, ends, and returns every owner once, in list order. */
    method GetOwners() returns (result: array<Address>)
      requires Ready()
      ensures fresh(result) && result[..] == list
    {
      result := new Address[ownerCount](_ => ZERO);
      var index := 0;
      assert Cycle(list)[0] == SENTINEL;
      var current := At(owners, SENTINEL);
      while current != SENTINEL
        invariant 0 <= index <= |list| && current == Cycle(list)[index + 1]
        invariant forall i :: 0 <= i < index ==> result[i] == list[i]
        decreases |list| - index
      {
        result[index] := current;
        current := At(owners, current);
        index := index + 1;
      }
      assert index == |list|;
    }

    /** One operation does to the linked list what `Changed` does to the list. */
    method PerformOne(caller: Address, op: Op)
      requires Ready()
      modifies this
      ensures Ready() && (list, threshold) == Changed(old(list), old(threshold), self, caller, op)
    {
      var r;
      match op {
        case Add(owner, t) => r := AddOwnerWithThreshold(caller, owner, t);
        case Change(t) => r := ChangeThreshold(caller, t);
        case Remove(prev, owner, t) =>
          r := RemoveOwner(caller, prev, owner, t);
          if r.Ok? {
            ghost var k :| Precedes(old(list), prev, owner, k) && list == Without(old(list), k);
            ghost var j :| Precedes(old(list), prev, owner, j)
                           && Changed(old(list), old(threshold), self, caller, op) == (Without(old(list), j), t);
            PrecedesOnce(old(list), prev, owner, j, k);
          }
        case Swap(prev, oldOwner, newOwner) =>
          r := SwapOwner(caller, prev, oldOwner, newOwner);
          if r.Ok? {
            ghost var k :| Precedes(old(list), prev, oldOwner, k) && list == old(list)[k := newOwner];
            ghost var j :| Precedes(old(list), prev, oldOwner, j)
                           && Changed(old(list), old(threshold), self, caller, op)
                              == (old(list)[j := newOwner], threshold);
            PrecedesOnce(old(list), prev, oldOwner, j, k);
          }
      }
    }

    /** Any sequence of owner operations, successful or not, keeps the registry in order, and owners and
        threshold are those of the same operations on the list. */
    method Perform(caller: Address, ops: seq<Op>)
      requires Ready()
      modifies this
      ensures Ready() && (list, threshold) == AfterOps(old(list), old(threshold), self, caller, ops)
    {
      assert ops[0..] == ops;
      for i := 0 to |ops|
        invariant Ready()
        invariant AfterOps(list, threshold, self, caller, ops[i..])
                  == AfterOps(old(list), old(threshold), self, caller, ops)
      {
        assert ops[i..][1..] == ops[i + 1..];
        PerformOne(caller, ops[i]);
      }
    }
  }

  // ----- reading a page

  /** Where an address stands in the walk, the sentinel first. */
  ghost function PlaceOf(list: seq<Address>, a: Address): (k: nat)
    ensures a == SENTINEL || a in list ==> k <= |list| && Cycle(list)[k] == a
  {
    if a in list then (var i :| 0 <= i < |list| && list[i] == a; i + 1) else 0
  }

  /** The page holds the elements after position `k`, and `current` is the one to read next. */
  ghost predicate OnPage(list: seq<Address>, k: nat, page: seq<Address>, current: Address) {
    k + |page| <= |list| && page == list[k..k + |page|] && current == Cycle(list)[k + |page| + 1]
  }

  lemma NextOnPage(m: Links, list: seq<Address>, k: nat, page: seq<Address>, current: Address)
    requires Linked(m, list) && OnPage(list, k, page, current) && current != SENTINEL
    ensures k + |page| < |list| && OnPage(list, k, page + [current], At(m, current))
  {
    var at := k + |page|;
    WalkStep(m, list, at);
    WalkStep(m, list, at + 1);
    assert list[k..at + 1] == list[k..at] + [list[at]];
  }

  class ModuleManager {
    const self: Address
    var modules: Links
    ghost var list: seq<Address>

    ghost predicate Ready()
      reads this
    {
      Linked(modules, list)
    }

    /** `setupModules` on fresh storage: the sentinel points to itself. */
    constructor (self: Address)
      ensures Ready() && list == [] && this.self == self
    {
      this.self := self;
      modules, list := map[SENTINEL := SENTINEL], [];
    }

    method EnableModule(caller: Address, a: Address) returns (r: Result<(), Code>)
      requires Ready()
      modifies this
      ensures Ready()
      ensures r.Ok? <==> caller == self && a != ZERO && a != SENTINEL && a !in old(list)
      ensures list == if r.Ok? then [a] + old(list) else old(list)
      ensures r.Err? ==> match r.error
                         case GS031 => caller != self
                         case GS101 => a == ZERO || a == SENTINEL
                         case GS102 => a in old(list)
                         case _ => false
    {
      if caller != self { return Err(GS031); }
      if a == ZERO || a == SENTINEL { return Err(GS101); }
      MemberIsLinked(modules, list, a);
      if At(modules, a) != ZERO { return Err(GS102); }
      LinkFront(modules, list, a);
      modules := modules[a := At(modules, SENTINEL)][SENTINEL := a];
      list := [a] + list;
      return Ok(());
    }

    method DisableModule(caller: Address, prev: Address, a: Address) returns (r: Result<(), Code>)
      requires Ready()
      modifies this
      ensures Ready()
      ensures r.Ok? <==> caller == self && exists k :: Precedes(old(list), prev, a, k)
      ensures r.Ok? ==> exists k :: Precedes(old(list), prev, a, k) && list == Without(old(list), k)
      ensures r.Err? ==> match r.error
                         case GS031 => caller != self
                         case GS101 => a == ZERO || a == SENTINEL
                         case GS103 => !exists k :: Precedes(old(list), prev, a, k)
                         case _ => false
      ensures r.Err? ==> list == old(list)
    {
      OnlyLinksPrecede(modules, list, prev, a);
      if caller != self { return Err(GS031); }
      if a == ZERO || a == SENTINEL { return Err(GS101); }
      if At(modules, prev) != a { return Err(GS103); }
      ghost var k :| Precedes(list, prev, a, k);
      Unlink(modules, list, k);
      modules := modules[prev := At(modules, a)][a := ZERO];
      list := Without(list, k);
      return Ok(());
    }

    /** One page after `start`: the next elements of the walk, at most `pageSize` of them, and the
        element that follows; nothing and address zero where `start` is not in the walk. */
    method GetModulesPaginated(start: Address, pageSize: nat) returns (page: seq<Address>, next: Address)
      requires Ready()
      ensures forall k :: 0 <= k <= |list| && Cycle(list)[k] == start ==>
                && |page| == (if pageSize <= |list| - k then pageSize else |list| - k)
                && page == list[k..k + |page|] && next == Cycle(list)[k + |page| + 1]
      ensures start != SENTINEL && start !in list ==> page == [] && next == ZERO
    {
      page := [];
      var current := At(modules, start);
      ghost var known := start == SENTINEL || start in list;
      ghost var k := PlaceOf(list, start);
      if known {
        WalkStep(modules, list, k);
      }
      while current != ZERO && current != SENTINEL && |page| < pageSize
        invariant !known ==> page == [] && current == ZERO
        invariant known ==> OnPage(list, k, page, current) && |page| <= pageSize
        decreases |list| - |page|
      {
        NextOnPage(modules, list, k, page, current);
        page := page + [current];
        current := At(modules, current);
      }
      next := current;
      CycleInjective(list);
    }
  }
}
