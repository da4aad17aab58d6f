/** Replay protection: runtime/src/check_nonce.rs over the nonces of pallets/evm-claims/src/lib.rs,
    from the migration of runtime/src/migrations/frontier.rs on. */
module Nonces {
  import opened Basics
  import opened Ledger
  import opened Claims

  /** `pin_signers`: every account that has signed gets a provider of its own. */
  function PinSigners(s: State): State {
    s.(accounts := PinnedAmong(s.accounts, Signers(s.accounts)), pins := s.pins + multiset(Signers(s.accounts)))
  }

  function Signers(accounts: map<AccountId, Info>): set<AccountId> {
    set who | who in accounts && accounts[who].nonce != 0
  }

  function PinnedAmong(accounts: map<AccountId, Info>, done: set<AccountId>): map<AccountId, Info> {
    map who | who in accounts ::
      if who in done then accounts[who].(providers := accounts[who].providers + 1) else accounts[who]
  }

  /** The nonce is counted and, the first time, pinned. */
  function Counted(s: State, who: AccountId, nonce: nat): State {
    var a := Get(s, who);
    var counted := Put(s, who, a.(nonce := a.nonce + 1));
    (if a.nonce == 0 then Pin(counted, who) else counted).(accepted := s.accepted + [Signature(who, nonce)])
  }

  /** The check of a signed transaction, which lifts the nonce, wants a provider and the very
      nonce, counts it, and pins a first signature. A transaction that fails leaves no trace. */
  function Sign(s: State, who: AccountId, nonce: nat): State {
    if Accepts(s, who, nonce) then Counted(LiftNonce(s, who), who, nonce) else s
  }

  predicate Accepts(s: State, who: AccountId, nonce: nat) {
    var a := Get(LiftNonce(s, who), who);
    a.providers > 0 && a.nonce == nonce
  }

  /** A transaction is accepted precisely at the signer's nonce, or at the one its address reached under
      Frontier if it has none yet, from an account that something keeps or that nonce will. */
  lemma AcceptsExactly(s: State, who: AccountId, nonce: nat)
    ensures
      var a := Get(s, who);
      var reached := if who.Revive? && a.nonce == 0 then Get(s, Legacy(who.address)).nonce else 0;
      Accepts(s, who, nonce) <==> nonce == Max(a.nonce, reached) && (a.providers > 0 || reached > 0)
    ensures
      var a, t := Get(s, who), Sign(s, who, nonce);
      if Accepts(s, who, nonce) then
        && Get(t, who).nonce == nonce + 1 && t.accepted == s.accepted + [Signature(who, nonce)]
        && Get(t, who).providers == a.providers + (if a.nonce == 0 then 1 else 0)
      else t == s
  {
  }

  // ---- Runs -----------------------------------------------------------------------------------

  /** Funds come and go, other pallets bind and unbind accounts, holders of keys sign, anybody
      claims, and the migration moves accounts. Nobody holds the key of a Frontier account. */
  datatype Step =
    | Fund(who: AccountId, amount: nat)
    | Withdraw(who: AccountId, amount: nat)
    | Bind(who: AccountId, consumers: nat, reserved: nat, terms: Terms)
    | SignCall(who: AccountId, nonce: nat)
    | ClaimCall(address: H160)
    | Migrate(address: H160)

  function Received(cfg: Config, s: State, who: AccountId, amount: nat): State {
    var free := Get(s, who).free + amount;
    if free < cfg.deposit then s else SetFree(s, who, free)
  }

  /** What is left below the deposit is lost. */
  function Withdrawn(cfg: Config, s: State, who: AccountId, amount: nat): State {
    if amount > Reducible(s, who, false, cfg.deposit) then s
    else
      var rest := SaturatingSub(Get(s, who).free, amount);
      SetFree(s, who, if rest < cfg.deposit then 0 else rest)
  }

  function Bound(s: State, who: AccountId, consumers: nat, reserved: nat, terms: Terms): State {
    if Get(s, who).providers == 0 then s
    else Put(s, who, Get(s, who).(consumers := consumers, reserved := reserved)).(terms := s.terms[who := terms])
  }

  function Apply(cfg: Config, s: State, step: Step, now: nat): State {
    match step
    case Fund(who, amount) => Received(cfg, s, who, amount)
    case Withdraw(who, amount) => Withdrawn(cfg, s, who, amount)
    case Bind(who, consumers, reserved, terms) => Bound(s, who, consumers, reserved, terms)
    case SignCall(who, nonce) => if who.Legacy? then s else Sign(s, who, nonce)
    case ClaimCall(address) =>
      if Authorize(cfg, s, address) != Valid then s else Kept(s, Claim(cfg, s, address, now))
    case Migrate(address) => Kept(s, MoveLegacy(cfg, s, address, now))
  }

  function Kept(s: State, outcome: Outcome<State>): State {
    if outcome.Done? then outcome.value else s
  }

  /** Each step with the block it falls in. */
  function Run(cfg: Config, s: State, steps: seq<(Step, nat)>): State
    decreases |steps|
  {
    if steps == [] then s else Run(cfg, Apply(cfg, s, steps[0].0, steps[0].1), steps[1..])
  }

  // ---- The invariant --------------------------------------------------------------------------

  ghost function One(b: bool): nat {
    if b then 1 else 0
  }

  /** A nonce holds a provider of its own, and of a signer's it was given once. */
  ghost predicate Secured(s: State, who: AccountId) {
    var a := Get(s, who);
    && a.providers >= One(a.free > 0) + One(a.nonce > 0)
    && (!who.Legacy? ==> s.pins[who] == One(a.nonce > 0))
  }

  /** The nonce an address reached under Frontier is still at the old account, or the new one is
      past it. */
  ghost predicate Floored(s: State, address: H160, reached: nat) {
    var previous, current := Get(s, Legacy(address)).nonce, Get(s, Revive(address)).nonce;
    (current == 0 ==> previous == reached) && (current > 0 ==> current >= reached) && previous <= reached
  }

  ghost predicate Spent(s: State) {
    && (forall x | x in s.accepted :: x.nonce < Get(s, x.who).nonce && !x.who.Legacy?)
    && (forall i, j | 0 <= i < j < |s.accepted| :: s.accepted[i] != s.accepted[j])
  }

  ghost predicate NoneBelow(s: State, origin: State) {
    forall x | x in s.accepted && x.who.Revive? :: Get(origin, Legacy(x.who.address)).nonce <= x.nonce
  }

  ghost predicate Sound(s: State, origin: State) {
    && (forall who :: Secured(s, who))
    && (forall address :: Floored(s, address, Get(origin, Legacy(address)).nonce))
    && Spent(s) && NoneBelow(s, origin)
  }

  // ---- Steps ----------------------------------------------------------------------------------

  /** No signer's nonce goes down. */
  ghost predicate Grows(s: State, t: State) {
    forall who: AccountId | !who.Legacy? :: Get(s, who).nonce <= Get(t, who).nonce
  }

  /** ... and nothing new is accepted. */
  ghost predicate Keeps(s: State, t: State) {
    t.accepted == s.accepted && Grows(s, t)
  }

  lemma KeepsSpent(s: State, t: State, origin: State)
    requires Keeps(s, t) && Spent(s) && NoneBelow(s, origin)
    ensures Spent(t) && NoneBelow(t, origin)
  {
  }

  /** Changing a free balance neither loses a nonce nor touches another account. */
  lemma SetFreeStep(s: State, who: AccountId, free: nat, other: AccountId)
    requires Secured(s, who) && Secured(s, other)
    ensures
      var t := SetFree(s, who, free);
      && Secured(t, other) && Get(t, other).nonce == Get(s, other).nonce
      && t.accepted == s.accepted && t.pins == s.pins
  {
  }

  lemma CarryStep(s: State, address: H160, other: AccountId)
    requires Secured(s, Revive(address)) && Secured(s, other)
    ensures
      var t := CarryNonce(s, Legacy(address), Revive(address));
      && Secured(t, other) && t.accepted == s.accepted
      && Get(t, other).nonce
         == if other == Revive(address) then Max(Get(s, Legacy(address)).nonce, Get(s, other).nonce)
            else Get(s, other).nonce
  {
  }

  /** The funds of a claim leave all nonces alone. */
  lemma MoveBalanceStep(cfg: Config, s: State, address: H160, now: nat, other: AccountId)
    requires Secured(s, Legacy(address)) && Secured(s, Revive(address)) && Secured(s, other)
    requires MoveBalance(cfg, s, Legacy(address), Revive(address), now).Done?
    ensures
      var t := MoveBalance(cfg, s, Legacy(address), Revive(address), now).value;
      Secured(t, other) && Get(t, other).nonce == Get(s, other).nonce && t.accepted == s.accepted
  {
    var legacy, account := Legacy(address), Revive(address);
    var amount := Get(s, legacy).free;
    if amount > 0 {
      var bare := Unvest(s, legacy);
      SameAccounts(s, bare, legacy);
      SameAccounts(s, bare, account);
      SameAccounts(s, bare, other);
      var ready := Open(cfg, bare, account);
      SetFreeStep(bare, account, cfg.deposit, legacy);
      SetFreeStep(bare, account, cfg.deposit, account);
      SetFreeStep(bare, account, cfg.deposit, other);
      TransferStep(ready, legacy, account, amount, other);
      hide Secured, Unvest, Open, Transfer, Spendable, AddSchedules;
      var moved := Transfer(ready, legacy, account, amount);
      var t := MoveBalance(cfg, s, legacy, account, now).value;
      SameAccounts(moved, t, other);
    }
  }

  lemma SameAccounts(s: State, t: State, who: AccountId)
    requires t.accounts == s.accounts && t.pins == s.pins && Secured(s, who)
    ensures Secured(t, who) && Get(t, who) == Get(s, who)
  {
  }

  lemma TransferStep(s: State, from: AccountId, to: AccountId, amount: nat, other: AccountId)
    requires Secured(s, from) && Secured(s, to) && Secured(s, other) && amount <= Get(s, from).free
    ensures
      var t := Transfer(s, from, to, amount);
      && Secured(t, other) && Get(t, other).nonce == Get(s, other).nonce
      && t.accepted == s.accepted && t.pins == s.pins
  {
    SetFreeStep(s, from, Get(s, from).free - amount, to);
    SetFreeStep(s, from, Get(s, from).free - amount, other);
    var paid := SetFree(s, from, Get(s, from).free - amount);
    SetFreeStep(paid, to, Get(paid, to).free + amount, other);
  }

  lemma SweepStep(s: State, address: H160, other: AccountId)
    requires Secured(s, other)
    ensures
      var t := Sweep(s, Legacy(address));
      && Secured(t, other) && t.accepted == s.accepted
      && (other != Legacy(address) ==> Get(t, other).nonce == Get(s, other).nonce)
      && Get(t, other).nonce in {0, Get(s, other).nonce}
  {
  }

  /** What moving an old account does to a nonce. */
  lemma MoveLegacyStep(cfg: Config, s: State, address: H160, now: nat, other: AccountId)
    requires forall who :: Secured(s, who)
    requires MoveLegacy(cfg, s, address, now).Done?
    ensures
      var t := MoveLegacy(cfg, s, address, now).value;
      && Secured(t, other) && t.accepted == s.accepted
      && (if other == Revive(address) then
            Get(t, other).nonce == Max(Get(s, Legacy(address)).nonce, Get(s, other).nonce)
          else if other == Legacy(address) then Get(t, other).nonce in {0, Get(s, other).nonce}
          else Get(t, other).nonce == Get(s, other).nonce)
  {
    hide Secured, MoveBalance, Sweep, CarryNonce, Get;
    var legacy, account := Legacy(address), Revive(address);
    var carried := CarryNonce(s, legacy, account);
    CarryStep(s, address, legacy);
    CarryStep(s, address, account);
    CarryStep(s, address, other);
    if Movable(carried, legacy) {
      MoveBalanceStep(cfg, carried, address, now, other);
      SweepStep(MoveBalance(cfg, carried, legacy, account, now).value, address, other);
    } else {
      SweepStep(carried, address, other);
    }
  }

  lemma MoveSound(cfg: Config, s: State, address: H160, now: nat, origin: State)
    requires Sound(s, origin) && MoveLegacy(cfg, s, address, now).Done?
    ensures Sound(MoveLegacy(cfg, s, address, now).value, origin)
    ensures Keeps(s, MoveLegacy(cfg, s, address, now).value)
  {
    var t := MoveLegacy(cfg, s, address, now).value;
    hide MoveLegacy, Secured, Get;
    forall who
      ensures Secured(t, who) && t.accepted == s.accepted
      ensures !who.Legacy? ==> Get(s, who).nonce <= Get(t, who).nonce
    {
      MoveLegacyStep(cfg, s, address, now, who);
    }
    forall h ensures Floored(t, h, Get(origin, Legacy(h)).nonce) {
      assert Floored(s, h, Get(origin, Legacy(h)).nonce);
      MoveLegacyStep(cfg, s, address, now, Legacy(h));
      MoveLegacyStep(cfg, s, address, now, Revive(h));
    }
    MoveLegacyStep(cfg, s, address, now, Legacy(address));
    KeepsSpent(s, t, origin);
  }

  lemma SetFreeSound(s: State, who: AccountId, free: nat, origin: State)
    requires Sound(s, origin)
    ensures Sound(SetFree(s, who, free), origin) && Keeps(s, SetFree(s, who, free))
  {
    var t := SetFree(s, who, free);
    hide SetFree, Secured, Get;
    forall other ensures Secured(t, other) && Get(t, other).nonce == Get(s, other).nonce && t.accepted == s.accepted {
      SetFreeStep(s, who, free, other);
    }
    SetFreeStep(s, who, free, who);
    SameNonces(s, t, origin);
  }

  lemma SameNonces(s: State, t: State, origin: State)
    requires Sound(s, origin) && t.accepted == s.accepted
    requires forall who :: Secured(t, who) && Get(t, who).nonce == Get(s, who).nonce
    ensures Sound(t, origin) && Keeps(s, t)
  {
    forall h ensures Floored(t, h, Get(origin, Legacy(h)).nonce) {
      assert Floored(s, h, Get(origin, Legacy(h)).nonce);
      assert Get(t, Legacy(h)).nonce == Get(s, Legacy(h)).nonce && Get(t, Revive(h)).nonce == Get(s, Revive(h)).nonce;
    }
    KeepsSpent(s, t, origin);
  }

  lemma BoundSound(s: State, who: AccountId, consumers: nat, reserved: nat, terms: Terms, origin: State)
    requires Sound(s, origin)
    ensures Sound(Bound(s, who, consumers, reserved, terms), origin) && Keeps(s, Bound(s, who, consumers, reserved, terms))
  {
    var t := Bound(s, who, consumers, reserved, terms);
    forall other ensures Secured(t, other) && Get(t, other).nonce == Get(s, other).nonce {
      assert Secured(s, other);
    }
    SameNonces(s, t, origin);
  }

  // ---- Signing --------------------------------------------------------------------------------

  lemma LiftSound(s: State, who: AccountId, origin: State)
    requires Sound(s, origin)
    ensures Sound(LiftNonce(s, who), origin) && Keeps(s, LiftNonce(s, who))
    ensures who.Revive? ==> Get(origin, Legacy(who.address)).nonce <= Get(LiftNonce(s, who), who).nonce
  {
    var t := LiftNonce(s, who);
    if who.Revive? {
      assert Floored(s, who.address, Get(origin, Legacy(who.address)).nonce);
      forall other
        ensures Secured(t, other) && t.accepted == s.accepted
        ensures Get(t, other).nonce >= Get(s, other).nonce && (other != who ==> Get(t, other).nonce == Get(s, other).nonce)
      {
        assert Secured(s, other) && Secured(s, who);
        CarryStep(s, who.address, other);
      }
      hide LiftNonce, Secured, Get;
      forall h ensures Floored(t, h, Get(origin, Legacy(h)).nonce) {
        assert Floored(s, h, Get(origin, Legacy(h)).nonce);
        assert h != who.address ==> Get(t, Revive(h)).nonce == Get(s, Revive(h)).nonce;
        assert Get(t, Legacy(h)).nonce == Get(s, Legacy(h)).nonce;
      }
      KeepsSpent(s, t, origin);
    }
  }

  lemma SignSound(s: State, who: AccountId, nonce: nat, origin: State)
    requires Sound(s, origin) && !who.Legacy?
    ensures Sound(Sign(s, who, nonce), origin)
    ensures Grows(s, Sign(s, who, nonce))
  {
    LiftSound(s, who, origin);
    var lifted := LiftNonce(s, who);
    hide LiftNonce;
    if Accepts(s, who, nonce) {
      CountSound(lifted, who, nonce, origin);
    }
  }

  lemma CountSound(s: State, who: AccountId, nonce: nat, origin: State)
    requires Sound(s, origin) && !who.Legacy? && Get(s, who).nonce == nonce
    requires who.Revive? ==> Get(origin, Legacy(who.address)).nonce <= nonce
    ensures Sound(Counted(s, who, nonce), origin)
    ensures Grows(s, Counted(s, who, nonce))
  {
    var t := Counted(s, who, nonce);
    forall other
      ensures Secured(t, other)
      ensures Get(t, other).nonce == if other == who then nonce + 1 else Get(s, other).nonce
    {
      assert Secured(s, other);
    }
    forall h ensures Floored(t, h, Get(origin, Legacy(h)).nonce) {
      assert Floored(s, h, Get(origin, Legacy(h)).nonce);
    }
    CountSpent(s, t, who, nonce, origin);
  }

  lemma CountSpent(s: State, t: State, who: AccountId, nonce: nat, origin: State)
    requires Spent(s) && NoneBelow(s, origin) && t.accepted == s.accepted + [Signature(who, nonce)]
    requires forall other :: Get(t, other).nonce == if other == who then nonce + 1 else Get(s, other).nonce
    requires !who.Legacy? && Get(s, who).nonce == nonce
    requires who.Revive? ==> Get(origin, Legacy(who.address)).nonce <= nonce
    ensures Spent(t) && NoneBelow(t, origin)
  {
    hide Get;
    forall i | 0 <= i < |s.accepted| ensures s.accepted[i] != Signature(who, nonce) {
      assert s.accepted[i] in s.accepted;
    }
  }

  // ---- Every run ------------------------------------------------------------------------------

  lemma ApplySound(cfg: Config, s: State, step: Step, now: nat, origin: State)
    requires cfg.deposit > 0 && Sound(s, origin)
    ensures
      var t := Apply(cfg, s, step, now);
      Sound(t, origin) && Grows(s, t)
  {
    hide Sound, SetFree, Bound, Sign, Claim, MoveLegacy, Reducible, Get, Authorize;
    match step {
      case Fund(who, amount) => SetFreeSound(s, who, Get(s, who).free + amount, origin);
      case Withdraw(who, amount) =>
        var rest := SaturatingSub(Get(s, who).free, amount);
        SetFreeSound(s, who, if rest < cfg.deposit then 0 else rest, origin);
      case Bind(who, consumers, reserved, terms) => BoundSound(s, who, consumers, reserved, terms, origin);
      case SignCall(who, nonce) => if !who.Legacy? { SignSound(s, who, nonce, origin); }
      case ClaimCall(address) => ClaimSound(cfg, s, address, now, origin);
      case Migrate(address) =>
        if MoveLegacy(cfg, s, address, now).Done? { MoveSound(cfg, s, address, now, origin); }
    }
  }

  lemma ClaimSound(cfg: Config, s: State, address: H160, now: nat, origin: State)
    requires cfg.deposit > 0 && Sound(s, origin)
    ensures
      var t := Kept(s, Claim(cfg, s, address, now));
      Sound(t, origin) && Grows(s, t)
  {
    var moved := MoveLegacy(cfg, s, address, now);
    if moved.Done? {
      MoveSound(cfg, s, address, now, origin);
      hide Sound, MoveLegacy, Reducible, Get, SetFree;
      var account := Revive(address);
      var paid := FeePaid(cfg, moved.value, account, FeeDue(cfg, s, Legacy(address)));
      SetFreeSound(moved.value, account, SaturatingSub(Get(moved.value, account).free, paid), origin);
    }
  }

  lemma {:induction false} RunSound(cfg: Config, s: State, steps: seq<(Step, nat)>, origin: State)
    requires cfg.deposit > 0 && Sound(s, origin)
    ensures
      var t := Run(cfg, s, steps);
      Sound(t, origin) && Grows(s, t)
    decreases |steps|
  {
    if steps != [] {
      hide Sound, Apply, Get;
      ApplySound(cfg, s, steps[0].0, steps[0].1, origin);
      RunSound(cfg, Apply(cfg, s, steps[0].0, steps[0].1), steps[1..], origin);
    }
  }

  /** The chain as the migration finds it: an account lives as long as its funds, nobody signs for
      an address yet, and nothing is pinned. */
  ghost predicate Unmigrated(s: State) {
    && (forall who :: Get(s, who).providers >= One(Get(s, who).free > 0))
    && (forall address :: Get(s, Revive(address)).nonce == 0)
    && s.pins == multiset{} && s.accepted == []
  }

  lemma PinnedSound(s: State)
    requires Unmigrated(s)
    ensures Sound(PinSigners(s), s)
  {
    var t := PinSigners(s);
    forall who ensures Secured(t, who) && Get(t, who).nonce == Get(s, who).nonce {
      assert Get(s, who).providers >= One(Get(s, who).free > 0);
    }
    forall h ensures Floored(t, h, Get(s, Legacy(h)).nonce) {
      assert Get(s, Revive(h)).nonce == 0;
    }
  }

  /** From the migration on, over every run: no signer's nonce goes down, no nonce of a signer is
      accepted twice, a signer is pinned exactly once, and no signer of an address is accepted
      below the nonce the address reached under Frontier. */
  lemma NoReplay(cfg: Config, origin: State, before: seq<(Step, nat)>, after: seq<(Step, nat)>)
    requires cfg.deposit > 0 && Unmigrated(origin)
    ensures
      var s := Run(cfg, PinSigners(origin), before);
      var t := Run(cfg, s, after);
      && (forall who: AccountId | !who.Legacy? :: Get(s, who).nonce <= Get(t, who).nonce)
      && (forall i, j | 0 <= i < j < |t.accepted| :: t.accepted[i] != t.accepted[j])
      && (forall who: AccountId | !who.Legacy? :: t.pins[who] == One(Get(t, who).nonce > 0))
      && (forall x | x in t.accepted && x.who.Revive? :: Get(origin, Legacy(x.who.address)).nonce <= x.nonce)
  {
    PinnedSound(origin);
    RunSound(cfg, PinSigners(origin), before, origin);
    var s := Run(cfg, PinSigners(origin), before);
    RunSound(cfg, s, after, origin);
    var t := Run(cfg, s, after);
    forall who: AccountId | !who.Legacy? ensures t.pins[who] == One(Get(t, who).nonce > 0) {
      assert Secured(t, who);
    }
  }

  // ---- Claims along a run ---------------------------------------------------------------------

  /** What a claim relies on holds along every run in which other pallets keep the vesting lock up. */
  lemma ApplySane(cfg: Config, s: State, step: Step, now: nat)
    requires cfg.deposit > 0 && (step.Bind? ==> Covered(step.terms, now))
    requires forall who :: Sane(cfg, s, who, now)
    ensures forall who :: Sane(cfg, Apply(cfg, s, step, now), who, now)
  {
    var t := Apply(cfg, s, step, now);
    hide Sane;
    forall who ensures Sane(cfg, t, who, now) {
      match step {
        case ClaimCall(address) =>
          if Claim(cfg, s, address, now).Done? {
            ClaimKeepsSane(cfg, s, address, now, who);
          }
        case Migrate(address) =>
          if MoveLegacy(cfg, s, address, now).Done? {
            MigrateSane(cfg, s, address, now, who);
          }
        case SignCall(signer, nonce) => SignSane(cfg, s, signer, nonce, now, who);
        case _ => FundsSane(cfg, s, step, now, who);
      }
      hide Claim, MoveLegacy, Sign;
    }
  }

  lemma FundsSane(cfg: Config, s: State, step: Step, now: nat, who: AccountId)
    requires (step.Fund? || step.Withdraw? || step.Bind?) && (step.Bind? ==> Covered(step.terms, now))
    requires Sane(cfg, s, who, now)
    ensures Sane(cfg, Apply(cfg, s, step, now), who, now)
  {
    hide Covered, Reducible;
  }

  lemma SignSane(cfg: Config, s: State, signer: AccountId, nonce: nat, now: nat, who: AccountId)
    requires Sane(cfg, s, who, now)
    ensures Sane(cfg, Sign(s, signer, nonce), who, now)
  {
    if signer.Revive? {
      CarryKeepsFunds(s, Legacy(signer.address), signer, who);
    }
    hide CarryNonce, Covered;
  }

  lemma MigrateSane(cfg: Config, s: State, address: H160, now: nat, who: AccountId)
    requires cfg.deposit > 0 && MoveLegacy(cfg, s, address, now).Done?
    requires Sane(cfg, s, Legacy(address), now) && Sane(cfg, s, Revive(address), now) && Sane(cfg, s, who, now)
    ensures Sane(cfg, MoveLegacy(cfg, s, address, now).value, who, now)
  {
    hide MoveLegacy, Covered;
    MoveKeepsSane(cfg, s, address, now);
    if who != Legacy(address) && who != Revive(address) {
      MoveTouchesOnly(cfg, s, address, now, who);
    }
  }

  lemma SaneLater(cfg: Config, s: State, who: AccountId, now: nat, later: nat)
    requires Sane(cfg, s, who, now) && now <= later
    ensures Sane(cfg, s, who, later)
  {
    SumLess(TermsOf(s, who).schedules, now, later);
  }

  lemma {:induction false} SumLess(schedules: seq<Schedule>, now: nat, later: nat)
    requires now <= later
    ensures LockedSum(schedules, later) <= LockedSum(schedules, now)
  {
    if schedules != [] {
      SumLess(schedules[..|schedules| - 1], now, later);
      LockedLess(schedules[|schedules| - 1], now, later);
    }
  }

  /** The block of the last step, or `now` before any. */
  function LastBlock(steps: seq<(Step, nat)>, now: nat): nat
    decreases |steps|
  {
    if steps == [] then now else LastBlock(steps[1..], steps[0].1)
  }

  /** Blocks do not go back, and other pallets keep the vesting lock up to what they let vest. */
  ghost predicate Orderly(steps: seq<(Step, nat)>, now: nat)
    decreases |steps|
  {
    steps != [] ==>
      && now <= steps[0].1 && (steps[0].0.Bind? ==> Covered(steps[0].0.terms, steps[0].1))
      && Orderly(steps[1..], steps[0].1)
  }

  lemma {:induction false} RunSane(cfg: Config, s: State, steps: seq<(Step, nat)>, now: nat)
    requires cfg.deposit > 0 && Orderly(steps, now)
    requires forall who :: Sane(cfg, s, who, now)
    ensures forall who :: Sane(cfg, Run(cfg, s, steps), who, LastBlock(steps, now))
    decreases |steps|
  {
    if steps != [] {
      var step, block := steps[0].0, steps[0].1;
      forall who ensures Sane(cfg, s, who, block) {
        SaneLater(cfg, s, who, now, block);
      }
      hide Sane, Apply, Covered;
      ApplySane(cfg, s, step, block);
      RunSane(cfg, Apply(cfg, s, step, block), steps[1..], block);
    }
  }

  /** Every claim along every such run from the migration on conserves funds and vesting, leaves
      nothing to claim, and if it was authorized it had a slot for every schedule. */
  lemma EveryClaim(cfg: Config, origin: State, start: nat, steps: seq<(Step, nat)>, address: H160, now: nat)
    requires cfg.deposit > 0 && Orderly(steps, start) && LastBlock(steps, start) <= now
    requires forall who :: Sane(cfg, origin, who, start)
    ensures
      var s := Run(cfg, PinSigners(origin), steps);
      var legacy, account, claim := Legacy(address), Revive(address), Claim(cfg, s, address, now);
      && (Authorize(cfg, s, address) == Valid ==> claim != Failed(AtMaxVestingSchedules))
      && (claim.Done? ==>
            && Authorize(cfg, claim.value, address) == NothingToClaim
            && ClaimPaid(cfg, s, address, now) <= Spendable(cfg, s, legacy)
            && (if Moves(s, legacy) then
                  && Total(claim.value, legacy) == 0
                  && Total(claim.value, account) + ClaimPaid(cfg, s, address, now)
                     == Total(s, account) + Total(s, legacy) + (if Total(s, account) == 0 then cfg.deposit else 0)
                else
                  Total(claim.value, legacy) == Total(s, legacy) && Total(claim.value, account) == Total(s, account))
            && (forall block | now <= block ::
                  LockedSum(TermsOf(claim.value, account).schedules, block)
                  + LockedSum(TermsOf(claim.value, legacy).schedules, block)
                  == LockedSum(TermsOf(s, account).schedules, block) + LockedSum(TermsOf(s, legacy).schedules, block)))
  {
    hide Claim, Sane, Authorize, Moves, Spendable, LockedSum, ClaimPaid, Total;
    var s, legacy := Run(cfg, PinSigners(origin), steps), Legacy(address);
    forall who ensures Sane(cfg, PinSigners(origin), who, start) {
      PinKeepsSane(cfg, origin, who, start);
    }
    RunSane(cfg, PinSigners(origin), steps, start);
    SaneLater(cfg, s, legacy, LastBlock(steps, start), now);
    if Authorize(cfg, s, address) == Valid {
      AuthorizedClaim(cfg, s, address, now);
    }
    if Claim(cfg, s, address, now).Done? {
      ClaimConserves(cfg, s, address, now);
      ClaimOnce(cfg, s, address, now);
      forall block | now <= block
        ensures LockedSum(TermsOf(Claim(cfg, s, address, now).value, Revive(address)).schedules, block)
                + LockedSum(TermsOf(Claim(cfg, s, address, now).value, legacy).schedules, block)
             == LockedSum(TermsOf(s, Revive(address)).schedules, block) + LockedSum(TermsOf(s, legacy).schedules, block)
      {
        ClaimKeepsVesting(cfg, s, address, now, block);
      }
    }
  }

  lemma PinKeepsSane(cfg: Config, s: State, who: AccountId, now: nat)
    requires Sane(cfg, s, who, now)
    ensures Sane(cfg, PinSigners(s), who, now)
  {
    hide Covered;
  }
}
