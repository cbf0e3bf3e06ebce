/** The Solidity contract with its storage. Each external function does exactly what `EthereumSpec` says
    or reverts, keeps the books in order, and gives its caller what `EthereumEffects` describes. */
module EthereumContract {
  import opened Prelude
  import opened Bytes
  import opened Requests
  import opened EthereumSpec
  import opened EthereumVotes
  import opened EthereumEffects

  /** `_setCommittee`: the loop that seats one member at a time, reverting on a seat already taken,
      accepts exactly the lists of distinct newcomers. */
  method SeatCommittee(g: Registry, id: U256, members: seq<Address>, threshold: U256)
    returns (r: Result<Registry, Error>)
    ensures r == Seated(g, id, members, threshold)
    ensures r.Ok? <==> MaySeat(g, id, members, threshold)
    ensures r.Ok? && (forall a: Address :: !IsInCommittee(g, id, a)) ==>
              r.value.committeeId == id && SeatedAs(r.value, id, members, threshold)
  {
    r := SeatAll(g, id, members, threshold);
    if r.Ok? && forall a: Address :: !IsInCommittee(g, id, a) {
      SeatingMeans(g, id, members, threshold);
    }
  }

  method SeatAll(g: Registry, id: U256, members: seq<Address>, threshold: U256) returns (r: Result<Registry, Error>)
    ensures r == Seated(g, id, members, threshold)
  {
    if threshold == 0 { return Err(ZeroSignatureThreshold); }
    if |members| < threshold { return Err(NotEnoughGuardians); }
    var committee := g.committee;
    for i := 0 to |members|
      invariant committee == g.committee + Seats(id, members[..i])
      invariant Distinct(members[..i])
      invariant forall k :: 0 <= k < i ==> !IsInCommittee(g, id, members[k])
    {
      var seat := MemberId(id, members[i]);
      assert members[..i + 1] == members[..i] + [members[i]];
      if seat in committee {
        if seat !in g.committee {
          TakenSeat(id, members[..i], members[i]);
          assert !Distinct(members);
        } else {
          assert members[i] in members && IsInCommittee(g, id, members[i]);
        }
        return Err(DuplicateCommitteeMember);
      }
      FreeSeat(id, members[..i], members[i]);
      committee := committee + {seat};
    }
    assert members[..|members|] == members;
    r := Ok(Registry(id, committee, g.sizes[id := |members|], g.thresholds[id := threshold], g.rosters + [members]));
  }

  lemma TakenSeat(id: U256, members: seq<Address>, a: Address)
    requires MemberId(id, a) in Seats(id, members)
    ensures a in members
  {
    var b :| b in members && MemberId(id, b) == MemberId(id, a);
    MemberIdInjective(id, b, id, a);
  }

  lemma FreeSeat(id: U256, members: seq<Address>, a: Address)
    requires MemberId(id, a) !in Seats(id, members)
    ensures a !in members && Seats(id, members + [a]) == Seats(id, members) + {MemberId(id, a)}
  {
  }

  // ----- what an outcome that follows the specification means in a sound state

  lemma SendOutcome(s: State, s': State, r: Result<(), Error>, caller: Address, c: Call, escrow: map<Address, nat>)
    requires c.Send? && Follows(ApplySend(s, c), s, s', r)
    ensures Answers(s, s', caller, c, r)
    ensures Sound(s, escrow) ==> Sound(s', escrow)
    ensures Sound(s, escrow) && r.Ok? ==>
              c.source in s.vault.pairs
              && LockedUp(s, s', ToAddress(c.source), s.vault.pairs[c.source], c.amount, c.receiver)
  {
    assert s' == Next(s, caller, c);
    Answered(s, s', caller, c, r);
    if Sound(s, escrow) {
      SoundKept(s, escrow, caller, c);
      if r.Ok? {
        SendMeans(s, c);
      }
    }
  }

  lemma SendNativeOutcome(s: State, s': State, r: Result<(), Error>, caller: Address, c: Call,
                          escrow: map<Address, nat>)
    requires c.SendNative? && Follows(ApplySendNative(s, c), s, s', r)
    ensures Answers(s, s', caller, c, r)
    ensures Sound(s, escrow) ==> Sound(s', escrow)
    ensures Sound(s, escrow) && r.Ok? ==>
              FromAddress(s.vault.weth) in s.vault.pairs
              && LockedUp(s, s', s.vault.weth, s.vault.pairs[FromAddress(s.vault.weth)], c.value, c.receiver)
  {
    assert s' == Next(s, caller, c);
    Answered(s, s', caller, c, r);
    if Sound(s, escrow) {
      SoundKept(s, escrow, caller, c);
      if r.Ok? {
        SendNativeMeans(s, c);
      }
    }
  }

  lemma VoteOutcome(s: State, s': State, r: Result<(), Error>, caller: Address, c: Call, escrow: map<Address, nat>)
    requires c.Receive? && Follows(ApplyReceive(s, caller, c), s, s', r)
    ensures Answers(s, s', caller, c, r)
    ensures Sound(s, escrow) ==> Sound(s', escrow)
    ensures Sound(s, escrow) && r.Ok? ==> VoteTaken(s, s', caller, c)
  {
    assert s' == Next(s, caller, c);
    Answered(s, s', caller, c, r);
    if Sound(s, escrow) {
      SoundKept(s, escrow, caller, c);
      if r.Ok? {
        VoteMeans(s, caller, c);
      }
    }
  }

  lemma SeatingOutcome(s: State, s': State, r: Result<(), Error>, caller: Address, c: Call, escrow: map<Address, nat>)
    requires c.SetCommittee? && Follows(ApplySetCommittee(s, caller, c), s, s', r)
    ensures Answers(s, s', caller, c, r)
    ensures Sound(s, escrow) ==> Sound(s', escrow)
    ensures Sound(s, escrow) && r.Ok? ==> s' == s.(reg := s'.reg) && Rotated(s.reg, s'.reg, c)
  {
    assert s' == Next(s, caller, c);
    Answered(s, s', caller, c, r);
    if Sound(s, escrow) {
      SoundKept(s, escrow, caller, c);
      if r.Ok? {
        RotationMeans(s, caller, c);
      }
    }
  }

  lemma PlainOutcome(s: State, s': State, r: Result<(), Error>, caller: Address, c: Call, escrow: map<Address, nat>)
    requires !c.Send? && !c.SendNative? && !c.Receive? && !c.SetCommittee? && Follows(Apply(s, caller, c), s, s', r)
    ensures Answers(s, s', caller, c, r)
    ensures r.Ok? ==> PlainlyDone(s, s', c)
    ensures Sound(s, escrow) ==> Sound(s', escrow)
  {
    assert s' == Next(s, caller, c);
    Answered(s, s', caller, c, r);
    if r.Ok? {
      PlainMeans(s, caller, c);
    }
    if Sound(s, escrow) {
      SoundKept(s, escrow, caller, c);
    }
  }

  /** Storage grouped as in the specification: committees, votes, tokens and requests. */
  class Most {
    var paused: bool
    var owner: Address
    var reg: Registry
    var votes: Ballots
    var vault: Vault
    ghost const openingEscrow: map<Address, nat>

    ghost function Model(): State
      reads this
    {
      State(paused, owner, reg, votes, vault)
    }

    ghost predicate Valid()
      reads this
    {
      Sound(Model(), openingEscrow)
    }

    /** `initialize`, on a committee that `_setCommittee` accepts. */
    constructor (members: seq<Address>, threshold: U256, owner: Address, weth: Address, escrow: map<Address, nat>)
      requires Seated(Registry(0, {}, map[], map[], []), 0, members, threshold).Ok?
      ensures Init(members, threshold, owner, weth, escrow) == Ok(Model()) && Valid() && openingEscrow == escrow
    {
      paused, this.owner := true, owner;
      votes := Ballots(map[], {}, {}, []);
      vault := EmptyVault(weth, escrow);
      openingEscrow := escrow;
      var r := SeatCommittee(Registry(0, {}, map[], map[], []), 0, members, threshold);
      reg := r.value;
      new;
      assert Init(members, threshold, owner, weth, escrow) == Ok(Model());
      DeployedSound(Model());
    }

    /** `initialize`, error cases included. */
    static method Initialize(members: seq<Address>, threshold: U256, owner: Address, weth: Address,
                             escrow: map<Address, nat>)
      returns (r: Result<Most, Error>)
      ensures match Init(members, threshold, owner, weth, escrow)
              case Err(e) => r == Err(e)
              case Ok(s) => r.Ok? && fresh(r.value) && r.value.Model() == s && r.value.Valid()
      ensures r.Ok? <==> 1 <= threshold <= |members| && Distinct(members)
      ensures r.Ok? ==> Founded(r.value.Model(), members, threshold, owner, weth, escrow)
    {
      InitMeans(members, threshold, owner, weth, escrow);
      var seated := SeatCommittee(Registry(0, {}, map[], map[], []), 0, members, threshold);
      if seated.Err? { return Err(seated.error); }
      var most := new Most(members, threshold, owner, weth, escrow);
      return Ok(most);
    }

    method SetCommittee(caller: Address, members: seq<Address>, threshold: U256) returns (r: Result<(), Error>)
      modifies this
      ensures Follows(ApplySetCommittee(old(Model()), caller, Call.SetCommittee(members, threshold)),
                      old(Model()), Model(), r)
      ensures Answers(old(Model()), Model(), caller, Call.SetCommittee(members, threshold), r)
      ensures old(Valid()) ==> Valid()
      ensures old(Valid()) && r.Ok? ==>
                Model() == old(Model()).(reg := reg) && Rotated(old(reg), reg, Call.SetCommittee(members, threshold))
    {
      r := SeatNext(caller, members, threshold);
      SeatingOutcome(old(Model()), Model(), r, caller, Call.SetCommittee(members, threshold), openingEscrow);
    }

    /** The body of `setCommittee`. */
    method SeatNext(caller: Address, members: seq<Address>, threshold: U256) returns (r: Result<(), Error>)
      modifies this
      ensures Follows(ApplySetCommittee(old(Model()), caller, Call.SetCommittee(members, threshold)),
                      old(Model()), Model(), r)
    {
      if caller != owner { return Err(NotOwner); }
      if !paused { return Err(ExpectedPause); }
      if reg.committeeId + 1 >= U256_LIMIT { return Err(Panic); }
      var seated := SeatCommittee(reg, reg.committeeId + 1, members, threshold);
      if seated.Err? { return Err(seated.error); }
      reg := seated.value;
      return Ok(());
    }

    /** Tokens are in; log the request and advance the nonce. */
    method Lock(token: Address, request: Request) returns (r: Result<(), Error>)
      modifies this
      ensures Follows(Locked(old(Model()), token, request), old(Model()), Model(), r)
    {
      if vault.requestNonce + 1 >= U256_LIMIT { return Err(Panic); }
      vault := vault.(escrow := vault.escrow[token := Held(vault, token) + request.amount],
                      requestNonce := vault.requestNonce + 1, sent := vault.sent + [EthereumSpec.Lock(token, request)]);
      return Ok(());
    }

    method SendRequest(caller: Address, source: Bytes32, amount: U256, receiver: Bytes32, pullOk: bool)
      returns (r: Result<(), Error>)
      modifies this
      ensures Follows(ApplySend(old(Model()), Send(source, amount, receiver, pullOk)), old(Model()), Model(), r)
      ensures Answers(old(Model()), Model(), caller, Send(source, amount, receiver, pullOk), r)
      ensures old(Valid()) ==> Valid()
      ensures old(Valid()) && r.Ok? ==>
                source in old(vault.pairs)
                && LockedUp(old(Model()), Model(), ToAddress(source), old(vault.pairs)[source], amount, receiver)
    {
      r := LockTokens(source, amount, receiver, pullOk);
      SendOutcome(old(Model()), Model(), r, caller, Send(source, amount, receiver, pullOk), openingEscrow);
    }

    /** The body of `sendRequest`. */
    method LockTokens(source: Bytes32, amount: U256, receiver: Bytes32, pullOk: bool) returns (r: Result<(), Error>)
      modifies this
      ensures Follows(ApplySend(old(Model()), Send(source, amount, receiver, pullOk)), old(Model()), Model(), r)
    {
      if paused { return Err(EnforcedPause); }
      if amount == 0 { return Err(ZeroAmount); }
      var dest := Get(vault.pairs, source, 0);
      if dest == 0 { return Err(UnsupportedPair); }
      if !pullOk { return Err(TokenTransfer); }
      r := Lock(ToAddress(source), Request(reg.committeeId, dest, amount, receiver, vault.requestNonce));
    }

    method SendRequestNative(caller: Address, receiver: Bytes32, value: U256, wrapOk: bool)
      returns (r: Result<(), Error>)
      modifies this
      ensures Follows(ApplySendNative(old(Model()), SendNative(receiver, value, wrapOk)), old(Model()), Model(), r)
      ensures Answers(old(Model()), Model(), caller, SendNative(receiver, value, wrapOk), r)
      ensures old(Valid()) ==> Valid()
      ensures old(Valid()) && r.Ok? ==>
                FromAddress(old(vault.weth)) in old(vault.pairs)
                && LockedUp(old(Model()), Model(), old(vault.weth), old(vault.pairs)[FromAddress(old(vault.weth))],
                            value, receiver)
    {
      r := LockEther(receiver, value, wrapOk);
      SendNativeOutcome(old(Model()), Model(), r, caller, SendNative(receiver, value, wrapOk), openingEscrow);
    }

    /** The body of `sendRequestNative`. */
    method LockEther(receiver: Bytes32, value: U256, wrapOk: bool) returns (r: Result<(), Error>)
      modifies this
      ensures Follows(ApplySendNative(old(Model()), SendNative(receiver, value, wrapOk)), old(Model()), Model(), r)
    {
      if paused { return Err(EnforcedPause); }
      if value == 0 { return Err(ZeroAmount); }
      var dest := Get(vault.pairs, FromAddress(vault.weth), 0);
      if dest == 0 { return Err(UnsupportedPair); }
      if !wrapOk { return Err(WrappingEth); }
      r := Lock(vault.weth, Request(reg.committeeId, dest, value, receiver, vault.requestNonce));
    }

    /** Return the locked tokens. What leaves the escrow reaches the receiver or stays behind as ether;
        only wrapped ether that cannot be unwrapped makes it fail. */
    method ReleaseTokens(request: Request, unwrapOk: bool, deliverOk: bool) returns (r: Result<bool, Error>)
      modifies this`vault
      ensures match Released(old(vault), Receive(EthDigest(request), request, unwrapOk, deliverOk))
              case Ok(out) => r == Ok(out.1) && vault == out.0
              case Err(e) => r == Err(e) && vault == old(vault)
      ensures r.Ok? ==> (r.value <==> deliverOk && request.amount <= Held(old(vault), ToAddress(request.token)))
      ensures r.Ok? ==> PaidOut(old(vault), vault, request, deliverOk, r.value)
      ensures r.Err? <==> ToAddress(request.token) == old(vault.weth)
                          && !(unwrapOk && request.amount <= Held(old(vault), old(vault.weth)))
    {
      ghost var call := Receive(EthDigest(request), request, unwrapOk, deliverOk);
      ReleaseFails(vault, call);
      if Released(vault, call).Ok? {
        ReleaseMeans(vault, call);
      }
      var token := ToAddress(request.token);
      var held := Held(vault, token);
      if token == vault.weth {
        if !unwrapOk || held < request.amount { return Err(UnwrappingEth); }
        vault := vault.(escrow := vault.escrow[token := held - request.amount]);
        if !deliverOk {
          vault := vault.(ether := vault.ether + request.amount);
        }
        return Ok(deliverOk);
      }
      if deliverOk && held >= request.amount {
        vault := vault.(escrow := vault.escrow[token := held - request.amount]);
        return Ok(true);
      }
      return Ok(false);
    }

    method ReceiveRequest(caller: Address, digest: Digest, request: Request, unwrapOk: bool, deliverOk: bool)
      returns (r: Result<(), Error>)
      modifies this
      ensures Follows(ApplyReceive(old(Model()), caller, Receive(digest, request, unwrapOk, deliverOk)),
                      old(Model()), Model(), r)
      ensures Answers(old(Model()), Model(), caller, Receive(digest, request, unwrapOk, deliverOk), r)
      ensures old(Valid()) ==> Valid()
      ensures old(Valid()) && r.Ok? ==>
                VoteTaken(old(Model()), Model(), caller, Receive(digest, request, unwrapOk, deliverOk))
    {
      r := TakeVote(caller, digest, request, unwrapOk, deliverOk);
      VoteOutcome(old(Model()), Model(), r, caller, Receive(digest, request, unwrapOk, deliverOk), openingEscrow);
    }

    /** The body of `receiveRequest`. */
    method TakeVote(caller: Address, digest: Digest, request: Request, unwrapOk: bool, deliverOk: bool)
      returns (r: Result<(), Error>)
      modifies this
      ensures Follows(ApplyReceive(old(Model()), caller, Receive(digest, request, unwrapOk, deliverOk)),
                      old(Model()), Model(), r)
    {
      if paused { return Err(EnforcedPause); }
      if !IsInCommittee(reg, request.committee, caller) { return Err(NotInCommittee); }
      if digest in votes.processed { return Ok(()); }
      var h := EthDigest(request);
      if (h, caller) in votes.signatures { return Ok(()); }
      if digest != h { return Err(DataHashMismatch); }
      var count := (Get(votes.pending, h, 0) as nat) + 1;
      if count >= U256_LIMIT { return Err(Panic); }
      var signed := votes.signatures + {(h, caller)};
      if count < Get(reg.thresholds, request.committee, 0) {
        votes := votes.(signatures := signed, pending := votes.pending[h := count]);
        return Ok(());
      }
      var delivered := ReleaseTokens(request, unwrapOk, deliverOk);
      if delivered.Err? { return Err(delivered.error); }
      votes := Ballots(votes.pending - {h}, signed, votes.processed + {h},
                       votes.releases + [Release(h, request, delivered.value)]);
      return Ok(());
    }

    /** After pausing, no sequence of calls without the owner moves votes, releases or requests. */
    method SetPaused(caller: Address, pause: bool) returns (r: Result<(), Error>)
      modifies this
      ensures Follows(Apply(old(Model()), caller, if pause then Pause else Unpause), old(Model()), Model(), r)
      ensures Answers(old(Model()), Model(), caller, if pause then Pause else Unpause, r)
      ensures r.Ok? ==> PlainlyDone(old(Model()), Model(), if pause then Pause else Unpause)
      ensures old(Valid()) ==> Valid()
      ensures r.Ok? ==> paused == pause
      ensures r.Ok? && pause ==> Frozen(Model())
    {
      if caller != owner {
        r := Err(NotOwner);
      } else if paused == pause {
        r := Err(if pause then EnforcedPause else ExpectedPause);
      } else {
        paused, r := pause, Ok(());
        if pause {
          PausedIsFrozen(Model());
        }
      }
      PlainOutcome(old(Model()), Model(), r, caller, if pause then Pause else Unpause, openingEscrow);
    }

    method AddPair(caller: Address, from: Bytes32, to: Bytes32) returns (r: Result<(), Error>)
      modifies this
      ensures Follows(ApplyVault(old(Model()), caller, Call.AddPair(from, to)), old(Model()), Model(), r)
      ensures Answers(old(Model()), Model(), caller, Call.AddPair(from, to), r)
      ensures r.Ok? ==> PlainlyDone(old(Model()), Model(), Call.AddPair(from, to))
      ensures old(Valid()) ==> Valid()
    {
      if caller != owner {
        r := Err(NotOwner);
      } else if !paused {
        r := Err(ExpectedPause);
      } else {
        vault := vault.(pairs := vault.pairs[from := to]);
        r := Ok(());
      }
      PlainOutcome(old(Model()), Model(), r, caller, Call.AddPair(from, to), openingEscrow);
    }

    method RemovePair(caller: Address, from: Bytes32) returns (r: Result<(), Error>)
      modifies this
      ensures Follows(ApplyVault(old(Model()), caller, Call.RemovePair(from)), old(Model()), Model(), r)
      ensures Answers(old(Model()), Model(), caller, Call.RemovePair(from), r)
      ensures r.Ok? ==> PlainlyDone(old(Model()), Model(), Call.RemovePair(from))
      ensures old(Valid()) ==> Valid()
    {
      if caller != owner {
        r := Err(NotOwner);
      } else if !paused {
        r := Err(ExpectedPause);
      } else {
        vault := vault.(pairs := vault.pairs - {from});
        r := Ok(());
      }
      PlainOutcome(old(Model()), Model(), r, caller, Call.RemovePair(from), openingEscrow);
    }

    /** `recoverERC20` and `recoverNative`. */
    method Recover(caller: Address, c: Call) returns (r: Result<(), Error>)
      requires c.RecoverERC20? || c.RecoverNative?
      modifies this
      ensures Follows(ApplyVault(old(Model()), caller, c), old(Model()), Model(), r)
      ensures Answers(old(Model()), Model(), caller, c, r)
      ensures r.Ok? ==> PlainlyDone(old(Model()), Model(), c)
      ensures old(Valid()) ==> Valid()
    {
      if caller != owner {
        r := Err(NotOwner);
      } else if c.RecoverERC20? {
        var held := Held(vault, c.token);
        if !c.transferOk || held < c.amount {
          r := Err(TokenTransfer);
        } else {
          vault := vault.(escrow := vault.escrow[c.token := held - c.amount],
                          recovered := vault.recovered[c.token := Get(vault.recovered, c.token, 0) + c.amount]);
          r := Ok(());
        }
      } else if !c.transferOk || vault.ether < c.amount {
        r := Err(EthTransfer);
      } else {
        vault := vault.(ether := vault.ether - c.amount, recoveredEther := vault.recoveredEther + c.amount);
        r := Ok(());
      }
      PlainOutcome(old(Model()), Model(), r, caller, c, openingEscrow);
    }

    /** Not a function of the contract: somebody transfers tokens to it. */
    method TakeDonation(caller: Address, token: Address, amount: U256)
      modifies this
      ensures Model() == Next(old(Model()), caller, Donate(token, amount))
    {
      vault := vault.(escrow := vault.escrow[token := Held(vault, token) + amount],
                      donated := vault.donated[token := Get(vault.donated, token, 0) + amount]);
    }

    /** Not a function of the contract: ether arrives without running its code. */
    method TakeForcedEther(caller: Address, amount: U256)
      modifies this
      ensures Model() == Next(old(Model()), caller, ForceEther(amount))
    {
      vault := vault.(ether := vault.ether + amount, forcedEther := vault.forcedEther + amount);
    }

    /** Any call, by the method it stands for. */
    method Handle(caller: Address, c: Call)
      modifies this
      ensures Model() == Next(old(Model()), caller, c)
    {
      match c
      case Send(source, amount, receiver, pullOk) => var _ := SendRequest(caller, source, amount, receiver, pullOk);
      case SendNative(receiver, value, wrapOk) => var _ := SendRequestNative(caller, receiver, value, wrapOk);
      case Receive(digest, request, unwrapOk, deliverOk) =>
        var _ := ReceiveRequest(caller, digest, request, unwrapOk, deliverOk);
      case SetCommittee(members, threshold) => var _ := SetCommittee(caller, members, threshold);
      case Pause => var _ := SetPaused(caller, true);
      case Unpause => var _ := SetPaused(caller, false);
      case AddPair(from, to) => var _ := AddPair(caller, from, to);
      case RemovePair(from) => var _ := RemovePair(caller, from);
      case Donate(token, amount) => TakeDonation(caller, token, amount);
      case ForceEther(amount) => TakeForcedEther(caller, amount);
      case _ => var _ := Recover(caller, c);
    }

    /** The class refines the specification over whole runs: what is proved about `Run` is true of the
        contract after any sequence of calls. */
    method Replay(calls: seq<(Address, Call)>)
      modifies this
      ensures Model() == Run(old(Model()), calls)
    {
      assert calls[0..] == calls;
      for i := 0 to |calls|
        invariant Run(Model(), calls[i..]) == Run(old(Model()), calls)
      {
        assert calls[i..][1..] == calls[i + 1..];
        Handle(calls[i].0, calls[i].1);
      }
    }
  }
}
