/** What the claims and the nonce check rely on from the system, balances and vesting pallets:
    reference counts, free balances with an existential deposit, and linear vesting. */
module Ledger {
  import opened Basics

  type H160 = nat

  /** An account with a key of its own, the account pallet-revive resolves an address to, or the
      account Frontier kept the address at. */
  datatype AccountId = Plain(key: nat) | Revive(address: H160) | Legacy(address: H160)

  /** `consumers` counts the references other pallets hold. */
  datatype Info = Info(nonce: nat, providers: nat, consumers: nat, free: nat, reserved: nat)

  const NOBODY := Info(0, 0, 0, 0, 0)

  datatype Schedule = Schedule(locked: nat, perBlock: nat, start: nat)

  /** The vesting schedules, the vesting lock as last written, the largest other lock and the
      largest freeze. */
  datatype Terms = Terms(schedules: seq<Schedule>, vestingLock: nat, lock: nat, freeze: nat)

  const UNBOUND := Terms([], 0, 0, 0)

  datatype Signature = Signature(who: AccountId, nonce: nat)

  /** `pins` counts the providers given for a nonce and `accepted` lists the signed transactions
      that passed. */
  datatype State = State(accounts: map<AccountId, Info>, terms: map<AccountId, Terms>, pins: multiset<AccountId>,
                         accepted: seq<Signature>)

  function Get(s: State, who: AccountId): Info {
    if who in s.accounts then s.accounts[who] else NOBODY
  }

  function Put(s: State, who: AccountId, info: Info): State {
    s.(accounts := s.accounts[who := info])
  }

  function TermsOf(s: State, who: AccountId): Terms {
    if who in s.terms then s.terms[who] else UNBOUND
  }

  function Total(s: State, who: AccountId): nat {
    Get(s, who).free + Get(s, who).reserved
  }

  // ---- References -----------------------------------------------------------------------------

  function Frozen(terms: Terms): nat {
    Max(terms.vestingLock, Max(terms.lock, terms.freeze))
  }

  /** The balances pallet consumes the account while anything is reserved or frozen. */
  function Consumers(s: State, who: AccountId): nat {
    Get(s, who).consumers + if Get(s, who).reserved > 0 || Frozen(TermsOf(s, who)) > 0 then 1 else 0
  }

  predicate CanDecProvider(s: State, who: AccountId) {
    Consumers(s, who) == 0 || Get(s, who).providers > 1
  }

  /** The provider that keeps a nonce. */
  function Pin(s: State, who: AccountId): State {
    var a := Get(s, who);
    Put(s, who, a.(providers := a.providers + 1)).(pins := s.pins + multiset{who})
  }

  // ---- Balances -------------------------------------------------------------------------------

  /** `reducible_balance`, polite; the deposit stays if asked for or if a reference needs it. */
  function Reducible(s: State, who: AccountId, preserve: bool, deposit: nat): nat {
    var a := Get(s, who);
    var frozen := SaturatingSub(Frozen(TermsOf(s, who)), a.reserved);
    SaturatingSub(a.free, if preserve || (a.free > 0 && !CanDecProvider(s, who)) then Max(frozen, deposit) else frozen)
  }

  /** A free balance is a provider; the account whose last provider goes is reaped, nonce and all. */
  function SetFree(s: State, who: AccountId, free: nat): State {
    var a := Get(s, who);
    if a.free == 0 && free > 0 then Put(s, who, a.(free := free, providers := a.providers + 1))
    else if a.free > 0 && free == 0 then
      if a.providers <= 1 then s.(accounts := s.accounts - {who})
      else Put(s, who, a.(free := 0, providers := a.providers - 1))
    else if a.free > 0 then Put(s, who, a.(free := free))
    else s
  }

  // ---- Vesting --------------------------------------------------------------------------------

  function LockedAt(schedule: Schedule, block: nat): nat {
    SaturatingSub(schedule.locked, Times(Max(1, schedule.perBlock), SaturatingSub(block, schedule.start)))
  }

  function Times(a: nat, b: nat): nat {
    a * b
  }

  function LockedSum(schedules: seq<Schedule>, block: nat): nat {
    if schedules == [] then 0
    else LockedSum(schedules[..|schedules| - 1], block) + LockedAt(schedules[|schedules| - 1], block)
  }

  /** Finished schedules are dropped whenever the schedules are written. */
  function Live(schedules: seq<Schedule>, now: nat): seq<Schedule> {
    if schedules == [] then []
    else
      var front, last := Live(schedules[..|schedules| - 1], now), schedules[|schedules| - 1];
      if LockedAt(last, now) == 0 then front else front + [last]
  }

  function Write(terms: Terms, schedules: seq<Schedule>, now: nat): Terms {
    terms.(schedules := Live(schedules, now), vestingLock := LockedSum(schedules, now))
  }

  lemma LockedLess(schedule: Schedule, block: nat, later: nat)
    requires block <= later
    ensures LockedAt(schedule, later) <= LockedAt(schedule, block)
  {
    TimesMonotone(Max(1, schedule.perBlock), SaturatingSub(block, schedule.start), SaturatingSub(later, schedule.start));
  }

  lemma TimesMonotone(a: nat, b: nat, c: nat)
    requires b <= c
    ensures Times(a, b) <= Times(a, c)
  {
  }

  /** What is dropped is never locked again. */
  lemma {:induction false} LiveSum(schedules: seq<Schedule>, now: nat, block: nat)
    requires now <= block
    ensures LockedSum(Live(schedules, now), block) == LockedSum(schedules, block)
    ensures |Live(schedules, now)| <= |schedules|
  {
    if schedules != [] {
      var front, last := schedules[..|schedules| - 1], schedules[|schedules| - 1];
      LiveSum(front, now, block);
      LockedLess(last, now, block);
      if LockedAt(last, now) > 0 {
        SumPush(Live(front, now), last, block);
      }
    }
  }

  lemma SumPush(schedules: seq<Schedule>, last: Schedule, block: nat)
    ensures LockedSum(schedules + [last], block) == LockedSum(schedules, block) + LockedAt(last, block)
  {
    assert (schedules + [last])[..|schedules|] == schedules;
  }
}
