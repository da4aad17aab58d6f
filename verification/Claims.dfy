/** Claims of Frontier accounts, pallets/evm-claims/src/lib.rs: what is authorized, what moves, and
    what it costs. */
module Claims {
  import opened Basics
  import opened Ledger

  datatype Config = Config(claimFee: nat, deposit: nat, maxSchedules: nat)

  datatype Failure = FundsUnavailable | AtMaxVestingSchedules

  datatype Outcome<T> = Done(value: T) | Failed(failure: Failure)

  datatype Authorization = Valid | NothingToClaim | NoRoomForVesting

  predicate Movable(s: State, legacy: AccountId) {
    Get(s, legacy).reserved == 0 && TermsOf(s, legacy).freeze == 0 && TermsOf(s, legacy).lock == 0
  }

  function Spendable(cfg: Config, s: State, who: AccountId): nat {
    Reducible(s, who, false, cfg.deposit)
  }

  function FeeDue(cfg: Config, s: State, legacy: AccountId): nat {
    if !Movable(s, legacy) then 0
    else if cfg.claimFee <= Spendable(cfg, s, legacy) then cfg.claimFee
    else Spendable(cfg, s, legacy)
  }

  function Authorize(cfg: Config, s: State, address: H160): Authorization {
    var legacy, account := Legacy(address), Revive(address);
    var nonceDue := Get(s, legacy).nonce > Get(s, account).nonce;
    var fundsDue := Movable(s, legacy) && Spendable(cfg, s, legacy) > cfg.claimFee;
    if !(nonceDue || fundsDue) then NothingToClaim
    else if |TermsOf(s, legacy).schedules| + |TermsOf(s, account).schedules| > cfg.maxSchedules then NoRoomForVesting
    else Valid
  }

  /** The nonce is raised to the old account's; leaving zero it is pinned. */
  function CarryNonce(s: State, legacy: AccountId, account: AccountId): State {
    var nonce, current := Get(s, legacy).nonce, Get(s, account).nonce;
    if nonce <= current then s
    else
      var pinned := if current == 0 then Pin(s, account) else s;
      Put(pinned, account, Get(pinned, account).(nonce := nonce))
  }

  function LiftNonce(s: State, who: AccountId): State {
    if !who.Revive? || Get(s, who).nonce != 0 then s else CarryNonce(s, Legacy(who.address), who)
  }

  // ---- Funds ----------------------------------------------------------------------------------

  /** All schedules are removed one by one. */
  function Unvest(s: State, legacy: AccountId): State {
    var terms := TermsOf(s, legacy);
    if terms.schedules == [] then s
    else s.(terms := s.terms[legacy := terms.(schedules := [], vestingLock := 0)])
  }

  /** An empty account gets its deposit first. */
  function Open(cfg: Config, s: State, account: AccountId): State {
    if Total(s, account) == 0 then SetFree(s, account, cfg.deposit) else s
  }

  function AddSchedules(cfg: Config, terms: Terms, schedules: seq<Schedule>, now: nat): Outcome<Terms> {
    if schedules == [] then Done(terms)
    else
      var front := AddSchedules(cfg, terms, schedules[..|schedules| - 1], now);
      if front.Failed? then front else AddSchedule(cfg, front.value, schedules[|schedules| - 1], now)
  }

  /** A schedule with nothing locked any more is not carried over. */
  function AddSchedule(cfg: Config, terms: Terms, schedule: Schedule, now: nat): Outcome<Terms> {
    if LockedAt(schedule, now) == 0 then Done(terms)
    else if |terms.schedules| >= cfg.maxSchedules then Failed(AtMaxVestingSchedules)
    else Done(Write(terms, terms.schedules + [schedule.(perBlock := Max(1, schedule.perBlock))], now))
  }

  function Transfer(s: State, from: AccountId, to: AccountId, amount: nat): State
    requires amount <= Get(s, from).free
  {
    var paid := SetFree(s, from, Get(s, from).free - amount);
    SetFree(paid, to, Get(paid, to).free + amount)
  }

  function MoveBalance(cfg: Config, s: State, legacy: AccountId, account: AccountId, now: nat): Outcome<State> {
    var amount := Get(s, legacy).free;
    if amount == 0 then Done(s)
    else
      var ready := Open(cfg, Unvest(s, legacy), account);
      if amount > Spendable(cfg, ready, legacy) || amount > Get(ready, legacy).free then Failed(FundsUnavailable)
      else
        var moved := Transfer(ready, legacy, account, amount);
        var terms := AddSchedules(cfg, TermsOf(moved, account), TermsOf(s, legacy).schedules, now);
        if terms.Failed? then Failed(terms.failure)
        else Done(moved.(terms := moved.terms[account := terms.value]))
  }

  /** The old account goes once nothing is left on it. */
  function Sweep(s: State, legacy: AccountId): State {
    if Consumers(s, legacy) == 0 && Total(s, legacy) == 0 then s.(accounts := s.accounts - {legacy}) else s
  }

  function MoveLegacy(cfg: Config, s: State, address: H160, now: nat): Outcome<State> {
    var legacy, account := Legacy(address), Revive(address);
    var carried := CarryNonce(s, legacy, account);
    var moved := if Movable(carried, legacy) then MoveBalance(cfg, carried, legacy, account, now) else Done(carried);
    if moved.Failed? then moved else Done(Sweep(moved.value, legacy))
  }

  /** The fee is taken as far as it can be without touching the deposit. */
  function FeePaid(cfg: Config, s: State, account: AccountId, fee: nat): nat {
    if fee <= Reducible(s, account, true, cfg.deposit) then fee else Reducible(s, account, true, cfg.deposit)
  }

  function PayFee(cfg: Config, s: State, account: AccountId, fee: nat): State {
    var free, paid := Get(s, account).free, FeePaid(cfg, s, account, fee);
    if paid == 0 then s else SetFree(s, account, SaturatingSub(free, paid))
  }

  function Claim(cfg: Config, s: State, address: H160, now: nat): Outcome<State> {
    var moved := MoveLegacy(cfg, s, address, now);
    if moved.Failed? then moved
    else Done(PayFee(cfg, moved.value, Revive(address), FeeDue(cfg, s, Legacy(address))))
  }

  // ---- Schedules ------------------------------------------------------------------------------

  /** Adding a schedule adds what it locks at every block from now on. */
  lemma AddedSum(cfg: Config, terms: Terms, schedule: Schedule, now: nat, block: nat)
    requires now <= block && AddSchedule(cfg, terms, schedule, now).Done?
    ensures
      var after := AddSchedule(cfg, terms, schedule, now).value;
      && LockedSum(after.schedules, block) == LockedSum(terms.schedules, block) + LockedAt(schedule, block)
      && |after.schedules| <= |terms.schedules| + 1
      && (after.lock == terms.lock && after.freeze == terms.freeze)
  {
    var added := schedule.(perBlock := Max(1, schedule.perBlock));
    LockedLess(schedule, now, block);
    LiveSum(terms.schedules + [added], now, block);
    SumPush(terms.schedules, added, block);
  }

  lemma {:induction false} AddedSums(cfg: Config, terms: Terms, schedules: seq<Schedule>, now: nat, block: nat)
    requires now <= block && AddSchedules(cfg, terms, schedules, now).Done?
    ensures
      var after := AddSchedules(cfg, terms, schedules, now).value;
      && LockedSum(after.schedules, block) == LockedSum(terms.schedules, block) + LockedSum(schedules, block)
      && |after.schedules| <= |terms.schedules| + |schedules|
      && (after.lock == terms.lock && after.freeze == terms.freeze)
  {
    if schedules != [] {
      var front, last := schedules[..|schedules| - 1], schedules[|schedules| - 1];
      AddedSums(cfg, terms, front, now, block);
      AddedSum(cfg, AddSchedules(cfg, terms, front, now).value, last, now, block);
    }
  }

  /** Schedules that fit next to each other never run out of slots. */
  lemma {:induction false} AddedFit(cfg: Config, terms: Terms, schedules: seq<Schedule>, now: nat)
    requires |terms.schedules| + |schedules| <= cfg.maxSchedules
    ensures AddSchedules(cfg, terms, schedules, now).Done?
  {
    if schedules != [] {
      var front := schedules[..|schedules| - 1];
      AddedFit(cfg, terms, front, now);
      AddedSums(cfg, terms, front, now, now);
    }
  }

  // ---- What a claim moves ---------------------------------------------------------------------

  /** A balance is nothing or at least the deposit, and the vesting lock is there for schedules and
      covers what they lock. */
  ghost predicate Sane(cfg: Config, s: State, who: AccountId, now: nat) {
    (Get(s, who).free == 0 || Get(s, who).free >= cfg.deposit) && Covered(TermsOf(s, who), now)
  }

  ghost predicate Covered(terms: Terms, now: nat) {
    (terms.schedules == [] ==> terms.vestingLock == 0) && LockedSum(terms.schedules, now) <= terms.vestingLock
  }

  /** Something moves: the funds are free of other claims, and there are some. */
  predicate Moves(s: State, legacy: AccountId) {
    Movable(s, legacy) && Get(s, legacy).free > 0
  }

  lemma CarryKeepsFunds(s: State, legacy: AccountId, account: AccountId, who: AccountId)
    ensures
      var t := CarryNonce(s, legacy, account);
      && TermsOf(t, who) == TermsOf(s, who)
      && Get(t, who).free == Get(s, who).free && Get(t, who).reserved == Get(s, who).reserved
      && Get(t, who).consumers == Get(s, who).consumers && Get(t, who).providers >= Get(s, who).providers
      && (who != account ==> Get(t, who) == Get(s, who))
  {
  }

  /** The state in which the funds are transferred. */
  lemma Opened(cfg: Config, s: State, legacy: AccountId, account: AccountId, now: nat)
    requires cfg.deposit > 0 && legacy != account && Moves(s, legacy) && Sane(cfg, s, legacy, now)
    ensures
      var t := Open(cfg, Unvest(s, legacy), account);
      && Get(t, legacy) == Get(s, legacy)
      && Frozen(TermsOf(t, legacy)) == 0 && TermsOf(t, legacy).schedules == []
      && (Spendable(cfg, t, legacy) >= Get(s, legacy).free <==>
            Get(s, legacy).consumers == 0 || Get(s, legacy).providers > 1)
      && TermsOf(t, account) == TermsOf(s, account) && Get(t, account).reserved == Get(s, account).reserved
      && Get(t, account).free == Get(s, account).free + (if Total(s, account) == 0 then cfg.deposit else 0)
  {
  }

  /** The transfer empties the one and fills the other. */
  lemma Transferred(s: State, legacy: AccountId, account: AccountId)
    requires legacy != account && Get(s, legacy).free > 0
    ensures
      var t := Transfer(s, legacy, account, Get(s, legacy).free);
      && t.terms == s.terms
      && Get(t, legacy).free == 0
      && (Get(s, legacy).reserved == 0 ==> Get(t, legacy).reserved == 0)
      && Get(t, account).free == Get(s, account).free + Get(s, legacy).free
      && Get(t, account).reserved == Get(s, account).reserved
  {
  }

  /** What the accounts hold once the funds are over. */
  ghost predicate Moved(cfg: Config, s: State, t: State, legacy: AccountId, account: AccountId, now: nat) {
    && Get(t, legacy).free == 0 && Get(t, legacy).reserved == 0
    && TermsOf(t, legacy).schedules == [] && TermsOf(t, legacy).vestingLock == 0
    && Get(t, account).reserved == Get(s, account).reserved
    && Get(t, account).free
       == Get(s, account).free + Get(s, legacy).free + (if Total(s, account) == 0 then cfg.deposit else 0)
    && AddSchedules(cfg, TermsOf(s, account), TermsOf(s, legacy).schedules, now) == Done(TermsOf(t, account))
  }

  lemma BalanceMoves(cfg: Config, s: State, legacy: AccountId, account: AccountId, now: nat)
    requires cfg.deposit > 0 && legacy != account && Moves(s, legacy) && Sane(cfg, s, legacy, now)
    ensures
      var moved := MoveBalance(cfg, s, legacy, account, now);
      && (moved.Done? ==> Moved(cfg, s, moved.value, legacy, account, now))
      && (moved == Failed(FundsUnavailable) <==> Get(s, legacy).consumers > 0 && Get(s, legacy).providers <= 1)
      && (moved == Failed(AtMaxVestingSchedules) ==>
            AddSchedules(cfg, TermsOf(s, account), TermsOf(s, legacy).schedules, now).Failed?)
  {
    Opened(cfg, s, legacy, account, now);
    AddFails(cfg, TermsOf(s, account), TermsOf(s, legacy).schedules, now);
    var ready := Open(cfg, Unvest(s, legacy), account);
    Transferred(ready, legacy, account);
    hide Open, Unvest, Spendable, Transfer, Get, AddSchedules, Total;
  }

  lemma {:induction false} AddFails(cfg: Config, terms: Terms, schedules: seq<Schedule>, now: nat)
    ensures AddSchedules(cfg, terms, schedules, now) != Failed(FundsUnavailable)
  {
    if schedules != [] {
      AddFails(cfg, terms, schedules[..|schedules| - 1], now);
    }
  }

  /** The old account's end does not touch anybody's funds. */
  lemma SweepKeeps(s: State, legacy: AccountId, who: AccountId)
    ensures
      var t := Sweep(s, legacy);
      && t.terms == s.terms
      && Total(t, who) == Total(s, who)
      && (who != legacy ==> Get(t, who) == Get(s, who))
  {
  }

  lemma LegacyMoves(cfg: Config, s: State, address: H160, now: nat)
    requires cfg.deposit > 0 && Sane(cfg, s, Legacy(address), now) && Moves(s, Legacy(address))
    ensures
      var legacy, account := Legacy(address), Revive(address);
      var moved := MoveLegacy(cfg, s, address, now);
      && (moved.Done? ==> Moved(cfg, s, moved.value, legacy, account, now))
      && (moved == Failed(FundsUnavailable) <==> Get(s, legacy).consumers > 0 && Get(s, legacy).providers <= 1)
      && (moved == Failed(AtMaxVestingSchedules) ==>
            AddSchedules(cfg, TermsOf(s, account), TermsOf(s, legacy).schedules, now).Failed?)
  {
    hide MoveBalance, Sweep, CarryNonce, AddSchedules, LockedSum, Get, TermsOf;
    var legacy, account := Legacy(address), Revive(address);
    var carried := CarryNonce(s, legacy, account);
    CarryKeepsFunds(s, legacy, account, legacy);
    CarryKeepsFunds(s, legacy, account, account);
    BalanceMoves(cfg, carried, legacy, account, now);
    var moved := MoveBalance(cfg, carried, legacy, account, now);
    if moved.Done? {
      SweepMoved(cfg, s, moved.value, legacy, account, now);
    }
  }

  lemma SweepMoved(cfg: Config, s: State, t: State, legacy: AccountId, account: AccountId, now: nat)
    requires legacy != account && Moved(cfg, s, t, legacy, account, now)
    ensures Moved(cfg, s, Sweep(t, legacy), legacy, account, now)
  {
    SweepKeeps(t, legacy, account);
  }

  lemma PaidFee(cfg: Config, s: State, account: AccountId, fee: nat)
    requires cfg.deposit > 0
    ensures
      var t := PayFee(cfg, s, account, fee);
      && t.terms == s.terms
      && Total(t, account) + FeePaid(cfg, s, account, fee) == Total(s, account)
      && (forall who | who != account :: Get(t, who) == Get(s, who))
  {
  }

  /** Without funds to move, a claim moves no funds and takes no fee. */
  lemma NothingMoves(cfg: Config, s: State, address: H160, now: nat)
    requires cfg.deposit > 0 && !Moves(s, Legacy(address))
    ensures FeeDue(cfg, s, Legacy(address)) == 0
    ensures
      var moved := MoveLegacy(cfg, s, address, now);
      && moved.Done? && moved.value.terms == s.terms
      && Total(moved.value, Legacy(address)) == Total(s, Legacy(address))
      && Total(moved.value, Revive(address)) == Total(s, Revive(address))
  {
    var legacy, account := Legacy(address), Revive(address);
    CarryKeepsFunds(s, legacy, account, legacy);
    CarryKeepsFunds(s, legacy, account, account);
    var carried := CarryNonce(s, legacy, account);
    SweepKeeps(carried, legacy, legacy);
    SweepKeeps(carried, legacy, account);
  }

  /** The fee of a claim, as it is taken. */
  function ClaimPaid(cfg: Config, s: State, address: H160, now: nat): nat {
    var moved := MoveLegacy(cfg, s, address, now);
    if moved.Failed? then 0 else FeePaid(cfg, moved.value, Revive(address), FeeDue(cfg, s, Legacy(address)))
  }

  /** The new account gains what the old one held, and a deposit if it was empty, less a fee within
      what the old account could spend. Where nothing moves, nobody's funds change. */
  lemma ClaimConserves(cfg: Config, s: State, address: H160, now: nat)
    requires cfg.deposit > 0 && Sane(cfg, s, Legacy(address), now) && Claim(cfg, s, address, now).Done?
    ensures
      var legacy, account, t := Legacy(address), Revive(address), Claim(cfg, s, address, now).value;
      var paid := ClaimPaid(cfg, s, address, now);
      && paid <= FeeDue(cfg, s, legacy) <= Spendable(cfg, s, legacy)
      && (if Moves(s, legacy) then
            && Total(t, legacy) == 0
            && Total(t, account) + paid
               == Total(s, account) + Total(s, legacy) + (if Total(s, account) == 0 then cfg.deposit else 0)
          else
            paid == 0 && Total(t, legacy) == Total(s, legacy) && Total(t, account) == Total(s, account))
  {
    var legacy, account := Legacy(address), Revive(address);
    var moved := MoveLegacy(cfg, s, address, now).value;
    PaidFee(cfg, moved, account, FeeDue(cfg, s, legacy));
    if Moves(s, legacy) {
      LegacyMoves(cfg, s, address, now);
    } else {
      NothingMoves(cfg, s, address, now);
    }
    hide MoveLegacy, PayFee, AddSchedules, CarryNonce;
  }

  /** At this and every later block the two accounts together have as much locked by vesting as
      before, whatever the claim moved. */
  lemma ClaimKeepsVesting(cfg: Config, s: State, address: H160, now: nat, block: nat)
    requires cfg.deposit > 0 && now <= block && Sane(cfg, s, Legacy(address), now)
    requires Claim(cfg, s, address, now).Done?
    ensures
      var legacy, account, t := Legacy(address), Revive(address), Claim(cfg, s, address, now).value;
      LockedSum(TermsOf(t, account).schedules, block) + LockedSum(TermsOf(t, legacy).schedules, block)
      == LockedSum(TermsOf(s, account).schedules, block) + LockedSum(TermsOf(s, legacy).schedules, block)
  {
    var legacy, account := Legacy(address), Revive(address);
    var moved := MoveLegacy(cfg, s, address, now).value;
    PaidFee(cfg, moved, account, FeeDue(cfg, s, legacy));
    if Moves(s, legacy) {
      LegacyMoves(cfg, s, address, now);
      AddedSums(cfg, TermsOf(s, account), TermsOf(s, legacy).schedules, now, block);
    } else {
      NothingMoves(cfg, s, address, now);
    }
    hide MoveLegacy, PayFee, AddSchedules, CarryNonce;
  }

  /** An authorized claim has a slot for every schedule. It fails precisely if funds are due to
      move off an account that nothing but those funds keeps, while something consumes it. */
  lemma AuthorizedClaim(cfg: Config, s: State, address: H160, now: nat)
    requires cfg.deposit > 0 && Sane(cfg, s, Legacy(address), now) && Authorize(cfg, s, address) == Valid
    ensures
      var legacy := Legacy(address);
      && Claim(cfg, s, address, now) != Failed(AtMaxVestingSchedules)
      && (Claim(cfg, s, address, now).Failed? <==>
            Moves(s, legacy) && Get(s, legacy).consumers > 0 && Get(s, legacy).providers <= 1)
  {
    hide MoveLegacy, PayFee, AddSchedules, CarryNonce, LockedSum, Spendable, FeeDue, Get, TermsOf;
    AddedFit(cfg, TermsOf(s, Revive(address)), TermsOf(s, Legacy(address)).schedules, now);
    var moved := MoveLegacy(cfg, s, address, now);
    assert moved.Done? || moved.failure == FundsUnavailable || moved.failure == AtMaxVestingSchedules;
    if Moves(s, Legacy(address)) {
      LegacyMoves(cfg, s, address, now);
    } else {
      NothingMoves(cfg, s, address, now);
    }
  }

  /** An account that starts empty and unbound pays the fee in full, and what it can then spend is
      at least what the old account could, less that fee. It is all the old account held, less the
      fee, precisely if no more than the deposit is still vesting. */
  lemma EmptyAccountPaysInFull(cfg: Config, s: State, address: H160, now: nat)
    requires cfg.deposit > 0 && Sane(cfg, s, Legacy(address), now) && Claim(cfg, s, address, now).Done?
    requires Moves(s, Legacy(address)) && Total(s, Revive(address)) == 0 && TermsOf(s, Revive(address)) == UNBOUND
    ensures
      var legacy, account, t := Legacy(address), Revive(address), Claim(cfg, s, address, now).value;
      && ClaimPaid(cfg, s, address, now) == FeeDue(cfg, s, legacy)
      && (Spendable(cfg, s, legacy) >= cfg.claimFee ==> ClaimPaid(cfg, s, address, now) == cfg.claimFee)
      && Reducible(t, account, true, cfg.deposit) + FeeDue(cfg, s, legacy) >= Spendable(cfg, s, legacy)
      && (Reducible(t, account, true, cfg.deposit) + FeeDue(cfg, s, legacy) == Get(s, legacy).free <==>
            LockedSum(TermsOf(s, legacy).schedules, now) <= cfg.deposit)
  {
    var legacy, account := Legacy(address), Revive(address);
    LegacyMoves(cfg, s, address, now);
    var moved := MoveLegacy(cfg, s, address, now).value;
    var schedules := TermsOf(s, legacy).schedules;
    AddedLock(cfg, UNBOUND, schedules, now);
    AddedSums(cfg, UNBOUND, schedules, now, now);
    PaidFromFree(cfg, moved, account, FeeDue(cfg, s, legacy));
    hide MoveLegacy, AddSchedules, CarryNonce, PayFee;
  }

  /** Ten held, five of them vesting: after the claim and its fee of one, five can be spent. */
  lemma VestingIsNotSpendable()
    ensures
      var cfg := Config(1, 1, 28);
      var s := State(map[Legacy(0) := Info(0, 1, 0, 10, 0)],
                     map[Legacy(0) := Terms([Schedule(5, 1, 100)], 5, 0, 0)], multiset{}, []);
      var claim := Claim(cfg, s, 0, 0);
      && claim.Done? && Authorize(cfg, s, 0) == Valid && FeeDue(cfg, s, Legacy(0)) == 1
      && Reducible(claim.value, Revive(0), true, cfg.deposit) + 1 != Get(s, Legacy(0)).free
  {
    var cfg := Config(1, 1, 28);
    var s := State(map[Legacy(0) := Info(0, 1, 0, 10, 0)],
                   map[Legacy(0) := Terms([Schedule(5, 1, 100)], 5, 0, 0)], multiset{}, []);
    OneSchedule(Schedule(5, 1, 100), 0);
    assert Get(s, Legacy(0)) == Info(0, 1, 0, 10, 0);
    assert Spendable(cfg, s, Legacy(0)) == 5;
    hide Claim, LockedSum, Spendable;
    AuthorizedClaim(cfg, s, 0, 0);
    EmptyAccountPaysInFull(cfg, s, 0, 0);
  }

  lemma OneSchedule(schedule: Schedule, block: nat)
    ensures LockedSum([schedule], block) == LockedAt(schedule, block)
  {
    assert [schedule][..0] == [] && LockedSum([], block) == 0;
  }

  /** The lock that is written is what the schedules lock. */
  lemma {:induction false} AddedLock(cfg: Config, terms: Terms, schedules: seq<Schedule>, now: nat)
    requires AddSchedules(cfg, terms, schedules, now).Done? && terms.vestingLock == LockedSum(terms.schedules, now)
    ensures
      var after := AddSchedules(cfg, terms, schedules, now).value;
      after.vestingLock == LockedSum(after.schedules, now)
  {
    if schedules != [] {
      var front, last := schedules[..|schedules| - 1], schedules[|schedules| - 1];
      AddedLock(cfg, terms, front, now);
      var before := AddSchedules(cfg, terms, front, now).value;
      LiveSum(before.schedules + [last.(perBlock := Max(1, last.perBlock))], now, now);
    }
  }

  lemma PaidFromFree(cfg: Config, s: State, account: AccountId, fee: nat)
    requires cfg.deposit > 0
    ensures
      var t, paid := PayFee(cfg, s, account, fee), FeePaid(cfg, s, account, fee);
      Reducible(t, account, true, cfg.deposit) == Reducible(s, account, true, cfg.deposit) - paid
  {
  }

  lemma SetFreeOthers(s: State, who: AccountId, free: nat, other: AccountId)
    requires other != who
    ensures Get(SetFree(s, who, free), other) == Get(s, other) && SetFree(s, who, free).terms == s.terms
  {
  }

  lemma BalanceTouchesOnly(cfg: Config, s: State, legacy: AccountId, account: AccountId, now: nat, who: AccountId)
    requires MoveBalance(cfg, s, legacy, account, now).Done? && who != legacy && who != account
    ensures
      var t := MoveBalance(cfg, s, legacy, account, now).value;
      Get(t, who) == Get(s, who) && TermsOf(t, who) == TermsOf(s, who)
  {
    if Get(s, legacy).free > 0 {
      var ready := Open(cfg, Unvest(s, legacy), account);
      ReadyOthers(cfg, s, legacy, account, who);
      TransferOthers(ready, legacy, account, Get(s, legacy).free, who);
      hide Open, Unvest, Spendable, Transfer, AddSchedules;
    }
  }

  lemma ReadyOthers(cfg: Config, s: State, legacy: AccountId, account: AccountId, who: AccountId)
    requires who != legacy && who != account
    ensures
      var t := Open(cfg, Unvest(s, legacy), account);
      Get(t, who) == Get(s, who) && TermsOf(t, who) == TermsOf(s, who)
  {
    SetFreeOthers(Unvest(s, legacy), account, cfg.deposit, who);
    hide SetFree;
  }

  lemma TransferOthers(s: State, from: AccountId, to: AccountId, amount: nat, who: AccountId)
    requires who != from && who != to
    ensures amount <= Get(s, from).free ==>
      Get(Transfer(s, from, to, amount), who) == Get(s, who) && Transfer(s, from, to, amount).terms == s.terms
  {
    if amount <= Get(s, from).free {
      var paid := SetFree(s, from, Get(s, from).free - amount);
      SetFreeOthers(s, from, Get(s, from).free - amount, who);
      SetFreeOthers(paid, to, Get(paid, to).free + amount, who);
    }
    hide SetFree;
  }

  lemma MoveTouchesOnly(cfg: Config, s: State, address: H160, now: nat, who: AccountId)
    requires MoveLegacy(cfg, s, address, now).Done? && who != Legacy(address) && who != Revive(address)
    ensures
      var t := MoveLegacy(cfg, s, address, now).value;
      Get(t, who) == Get(s, who) && TermsOf(t, who) == TermsOf(s, who)
  {
    hide CarryNonce, MoveBalance, Sweep, Get;
    var legacy, account := Legacy(address), Revive(address);
    var carried := CarryNonce(s, legacy, account);
    CarryKeepsFunds(s, legacy, account, who);
    if Movable(carried, legacy) {
      BalanceTouchesOnly(cfg, carried, legacy, account, now, who);
      SweepKeeps(MoveBalance(cfg, carried, legacy, account, now).value, legacy, who);
    } else {
      SweepKeeps(carried, legacy, who);
    }
  }

  /** Nobody else notices a claim. */
  lemma ClaimTouchesOnly(cfg: Config, s: State, address: H160, now: nat, who: AccountId)
    requires cfg.deposit > 0 && Claim(cfg, s, address, now).Done? && who != Legacy(address) && who != Revive(address)
    ensures
      var t := Claim(cfg, s, address, now).value;
      Get(t, who) == Get(s, who) && TermsOf(t, who) == TermsOf(s, who)
  {
    hide MoveLegacy, PayFee, FeeDue, Get;
    MoveTouchesOnly(cfg, s, address, now, who);
    PaidFee(cfg, MoveLegacy(cfg, s, address, now).value, Revive(address), FeeDue(cfg, s, Legacy(address)));
  }

  lemma {:induction false} AddedCovered(cfg: Config, terms: Terms, schedules: seq<Schedule>, now: nat)
    requires AddSchedules(cfg, terms, schedules, now).Done? && Covered(terms, now)
    ensures Covered(AddSchedules(cfg, terms, schedules, now).value, now)
  {
    if schedules != [] {
      var front, last := schedules[..|schedules| - 1], schedules[|schedules| - 1];
      AddedCovered(cfg, terms, front, now);
      var before := AddSchedules(cfg, terms, front, now).value;
      LiveSum(before.schedules + [last.(perBlock := Max(1, last.perBlock))], now, now);
    }
  }

  lemma PaidKeepsSane(cfg: Config, s: State, account: AccountId, fee: nat, now: nat)
    requires cfg.deposit > 0 && Sane(cfg, s, account, now)
    ensures Sane(cfg, PayFee(cfg, s, account, fee), account, now)
  {
    hide Covered;
  }

  /** A claim leaves every account as it should be. */
  lemma ClaimKeepsSane(cfg: Config, s: State, address: H160, now: nat, who: AccountId)
    requires cfg.deposit > 0 && Claim(cfg, s, address, now).Done?
    requires Sane(cfg, s, Legacy(address), now) && Sane(cfg, s, Revive(address), now) && Sane(cfg, s, who, now)
    ensures Sane(cfg, Claim(cfg, s, address, now).value, who, now)
  {
    var legacy, account := Legacy(address), Revive(address);
    if who == legacy || who == account {
      var moved := MoveLegacy(cfg, s, address, now).value;
      var fee := FeeDue(cfg, s, legacy);
      MoveKeepsSane(cfg, s, address, now);
      PaidFee(cfg, moved, account, fee);
      PaidKeepsSane(cfg, moved, account, fee, now);
      hide MoveLegacy, PayFee, Covered;
    } else {
      ClaimTouchesOnly(cfg, s, address, now, who);
    }
  }

  lemma MoveKeepsSane(cfg: Config, s: State, address: H160, now: nat)
    requires cfg.deposit > 0 && MoveLegacy(cfg, s, address, now).Done?
    requires Sane(cfg, s, Legacy(address), now) && Sane(cfg, s, Revive(address), now)
    ensures
      var t := MoveLegacy(cfg, s, address, now).value;
      Sane(cfg, t, Legacy(address), now) && Sane(cfg, t, Revive(address), now)
  {
    var legacy, account := Legacy(address), Revive(address);
    if Moves(s, legacy) {
      LegacyMoves(cfg, s, address, now);
      AddedCovered(cfg, TermsOf(s, account), TermsOf(s, legacy).schedules, now);
    } else {
      CarryKeepsFunds(s, legacy, account, legacy);
      CarryKeepsFunds(s, legacy, account, account);
    }
    hide MoveBalance, CarryNonce, AddSchedules;
  }

  // ---- A claim claims everything --------------------------------------------------------------

  lemma SetFreeNonce(s: State, who: AccountId, free: nat)
    ensures free > 0 ==> Get(SetFree(s, who, free), who).nonce == Get(s, who).nonce
    ensures Get(SetFree(s, who, free), who).nonce <= Get(s, who).nonce
  {
  }

  lemma MoveBalanceNonces(cfg: Config, s: State, legacy: AccountId, account: AccountId, now: nat)
    requires cfg.deposit > 0 && legacy != account && MoveBalance(cfg, s, legacy, account, now).Done?
    ensures
      var t := MoveBalance(cfg, s, legacy, account, now).value;
      Get(t, account).nonce == Get(s, account).nonce && Get(t, legacy).nonce <= Get(s, legacy).nonce
  {
    var amount := Get(s, legacy).free;
    if amount > 0 {
      var bare := Unvest(s, legacy);
      SetFreeNonce(bare, account, cfg.deposit);
      SetFreeOthers(bare, account, cfg.deposit, legacy);
      TransferNonces(Open(cfg, bare, account), legacy, account, amount);
      hide SetFree, Spendable, AddSchedules, Transfer;
    }
  }

  lemma TransferNonces(s: State, from: AccountId, to: AccountId, amount: nat)
    requires from != to && amount > 0
    ensures amount <= Get(s, from).free ==>
      var t := Transfer(s, from, to, amount);
      Get(t, to).nonce == Get(s, to).nonce && Get(t, from).nonce <= Get(s, from).nonce
  {
    if amount <= Get(s, from).free {
      var rest := Get(s, from).free - amount;
      var paid := SetFree(s, from, rest);
      SetFreeNonce(s, from, rest);
      SetFreeOthers(s, from, rest, to);
      SetFreeNonce(paid, to, Get(paid, to).free + amount);
      SetFreeOthers(paid, to, Get(paid, to).free + amount, from);
    }
    hide SetFree;
  }

  lemma ClaimNonces(cfg: Config, s: State, address: H160, now: nat)
    requires cfg.deposit > 0 && Claim(cfg, s, address, now).Done?
    ensures
      var legacy, account, t := Legacy(address), Revive(address), Claim(cfg, s, address, now).value;
      && Get(t, account).nonce == Max(Get(s, legacy).nonce, Get(s, account).nonce)
      && Get(t, legacy).nonce <= Get(s, legacy).nonce
  {
    var legacy, account := Legacy(address), Revive(address);
    var carried := CarryNonce(s, legacy, account);
    assert Get(carried, account).nonce == Max(Get(s, legacy).nonce, Get(s, account).nonce);
    CarryKeepsFunds(s, legacy, account, legacy);
    hide CarryNonce, MoveBalance, Sweep, PayFee;
    var moved := if Movable(carried, legacy) then MoveBalance(cfg, carried, legacy, account, now).value else carried;
    if Movable(carried, legacy) {
      MoveBalanceNonces(cfg, carried, legacy, account, now);
    }
    SweepNonces(moved, legacy, account);
    PaidNonce(cfg, Sweep(moved, legacy), account, legacy, FeeDue(cfg, s, legacy));
  }

  lemma SweepNonces(s: State, legacy: AccountId, account: AccountId)
    requires legacy != account
    ensures Get(Sweep(s, legacy), account).nonce == Get(s, account).nonce
    ensures Get(Sweep(s, legacy), legacy).nonce <= Get(s, legacy).nonce
  {
  }

  lemma PaidNonce(cfg: Config, s: State, account: AccountId, legacy: AccountId, fee: nat)
    requires cfg.deposit > 0 && legacy != account
    ensures Get(PayFee(cfg, s, account, fee), account).nonce == Get(s, account).nonce
    ensures Get(PayFee(cfg, s, account, fee), legacy) == Get(s, legacy)
  {
  }

  /** A claim leaves nothing to claim. */
  lemma ClaimOnce(cfg: Config, s: State, address: H160, now: nat)
    requires cfg.deposit > 0 && Sane(cfg, s, Legacy(address), now) && Claim(cfg, s, address, now).Done?
    ensures Authorize(cfg, Claim(cfg, s, address, now).value, address) == NothingToClaim
  {
    var legacy, account, t := Legacy(address), Revive(address), Claim(cfg, s, address, now).value;
    ClaimNonces(cfg, s, address, now);
    ClaimConserves(cfg, s, address, now);
    if !Moves(s, legacy) {
      StaysBound(cfg, s, address, now);
    }
    hide Claim;
  }

  /** Funds that cannot move are as bound after the claim as before. */
  lemma StaysBound(cfg: Config, s: State, address: H160, now: nat)
    requires cfg.deposit > 0 && !Moves(s, Legacy(address)) && Claim(cfg, s, address, now).Done?
    ensures
      var legacy, t := Legacy(address), Claim(cfg, s, address, now).value;
      TermsOf(t, legacy) == TermsOf(s, legacy)
      && (Get(t, legacy).free == Get(s, legacy).free && Get(t, legacy).reserved == Get(s, legacy).reserved)
  {
    var legacy, account := Legacy(address), Revive(address);
    NothingMoves(cfg, s, address, now);
    CarryKeepsFunds(s, legacy, account, legacy);
    var moved := MoveLegacy(cfg, s, address, now).value;
    PaidFee(cfg, moved, account, FeeDue(cfg, s, legacy));
    hide CarryNonce, PayFee, Reducible;
  }

  /** A claim is authorized precisely if the schedules fit next to each other and there is a nonce to
      raise, or funds that nothing but vesting binds and of which more than the fee can be spent. */
  lemma AuthorizedExactly(cfg: Config, s: State, address: H160)
    ensures
      var legacy, account := Get(s, Legacy(address)), Get(s, Revive(address));
      var bound := TermsOf(s, Legacy(address));
      var needed := legacy.providers <= 1 && (legacy.consumers > 0 || bound.vestingLock > 0);
      Authorize(cfg, s, address) == Valid <==>
        && |bound.schedules| + |TermsOf(s, Revive(address)).schedules| <= cfg.maxSchedules
        && (|| legacy.nonce > account.nonce
            || (&& legacy.reserved == 0 && bound.freeze == 0 && bound.lock == 0
                && legacy.free > cfg.claimFee + (if needed then Max(bound.vestingLock, cfg.deposit) else bound.vestingLock)))
  {
  }

  /** The fee is the claim fee or, if that is less, what the old account can spend, and it is taken as
      far as the new account's deposit and locks leave room. */
  lemma FeeTaken(cfg: Config, s: State, address: H160, now: nat)
    requires cfg.deposit > 0 && Sane(cfg, s, Legacy(address), now) && Claim(cfg, s, address, now).Done?
    requires Moves(s, Legacy(address))
    ensures
      var legacy, account, t := Legacy(address), Revive(address), Claim(cfg, s, address, now).value;
      var terms := TermsOf(t, account);
      var held := Get(s, account).free + Get(s, legacy).free + (if Total(s, account) == 0 then cfg.deposit else 0);
      var locked := SaturatingSub(Max(terms.vestingLock, Max(terms.lock, terms.freeze)), Get(s, account).reserved);
      && FeeDue(cfg, s, legacy) == Min(cfg.claimFee, Spendable(cfg, s, legacy))
      && ClaimPaid(cfg, s, address, now)
         == Min(FeeDue(cfg, s, legacy), SaturatingSub(held, Max(locked, cfg.deposit)))
  {
    var legacy, account := Legacy(address), Revive(address);
    LegacyMoves(cfg, s, address, now);
    var moved := MoveLegacy(cfg, s, address, now).value;
    PaidFee(cfg, moved, account, FeeDue(cfg, s, legacy));
    hide MoveLegacy, AddSchedules, CarryNonce, PayFee, Sane;
  }

  /** Once its funds are over, the old account is gone unless something else consumes it. */
  lemma OldAccountGoes(cfg: Config, s: State, address: H160, now: nat)
    requires cfg.deposit > 0 && Sane(cfg, s, Legacy(address), now) && Claim(cfg, s, address, now).Done?
    requires Moves(s, Legacy(address))
    ensures Legacy(address) in Claim(cfg, s, address, now).value.accounts <==> Get(s, Legacy(address)).consumers > 0
  {
    var legacy, account := Legacy(address), Revive(address);
    var carried := CarryNonce(s, legacy, account);
    CarryKeepsFunds(s, legacy, account, legacy);
    LegacyMoves(cfg, s, address, now);
    LeftBehind(cfg, carried, legacy, account, now);
    var moved := MoveLegacy(cfg, s, address, now).value;
    var fee := FeeDue(cfg, s, legacy);
    assert legacy in PayFee(cfg, moved, account, fee).accounts <==> legacy in moved.accounts;
    hide CarryNonce, MoveBalance, PayFee, AddSchedules, LockedSum;
  }

  lemma LeftBehind(cfg: Config, s: State, legacy: AccountId, account: AccountId, now: nat)
    requires cfg.deposit > 0 && legacy != account && Moves(s, legacy) && Sane(cfg, s, legacy, now)
    requires MoveBalance(cfg, s, legacy, account, now).Done?
    ensures
      var t := MoveBalance(cfg, s, legacy, account, now).value;
      && Frozen(TermsOf(t, legacy)) == 0 && Get(t, legacy).free == 0 && Get(t, legacy).reserved == 0
      && (Get(s, legacy).consumers > 0 ==> legacy in t.accounts && Get(t, legacy).consumers > 0)
      && (Get(s, legacy).consumers == 0 ==> Get(t, legacy).consumers == 0)
  {
    Opened(cfg, s, legacy, account, now);
    hide AddSchedules, LockedSum;
  }

  /** An authorized claim that succeeds brings the new account a higher nonce or more funds. */
  lemma AuthorizedGains(cfg: Config, s: State, address: H160, now: nat)
    requires cfg.deposit > 0 && Sane(cfg, s, Legacy(address), now) && Claim(cfg, s, address, now).Done?
    requires Authorize(cfg, s, address) == Valid
    ensures
      var account, t := Revive(address), Claim(cfg, s, address, now).value;
      Get(t, account).nonce > Get(s, account).nonce || Total(t, account) > Total(s, account)
  {
    ClaimNonces(cfg, s, address, now);
    ClaimConserves(cfg, s, address, now);
    hide Claim, ClaimPaid;
  }
}
