/** The accounts as the claims pallet, the nonce check and the migration update them, each update
    proved to be the step it stands for. */
module ClaimsPallet {
  import opened Basics
  import opened Ledger
  import opened Claims
  import opened Nonces

  class Accounts {
    const cfg: Config
    var accounts: map<AccountId, Info>
    var terms: map<AccountId, Terms>
    ghost var pins: multiset<AccountId>
    ghost var accepted: seq<Signature>

    ghost function Contents(): State
      reads this
    {
      State(accounts, terms, pins, accepted)
    }

    constructor (cfg: Config, accounts: map<AccountId, Info>, terms: map<AccountId, Terms>)
      ensures this.cfg == cfg && Contents() == State(accounts, terms, multiset{}, [])
    {
      this.cfg, this.accounts, this.terms := cfg, accounts, terms;
      pins, accepted := multiset{}, [];
    }

    function Account(who: AccountId): (info: Info)
      reads this
      ensures info == Get(Contents(), who)
    {
      if who in accounts then accounts[who] else NOBODY
    }

    function Bindings(who: AccountId): (bindings: Terms)
      reads this
      ensures bindings == TermsOf(Contents(), who)
    {
      if who in terms then terms[who] else UNBOUND
    }

    method IncProviders(who: AccountId)
      modifies this`accounts, this`pins
      ensures Contents() == Pin(old(Contents()), who)
    {
      var info := Account(who);
      accounts := accounts[who := info.(providers := info.providers + 1)];
      pins := pins + multiset{who};
    }

    /** The signers are collected first, in whatever order the map yields them. */
    method PinAll()
      modifies this`accounts, this`pins
      ensures Contents() == PinSigners(old(Contents()))
    {
      hide PinnedAmong, Signers;
      var signers := Signers(accounts);
      ghost var done: set<AccountId> := {};
      PinNobody(accounts);
      while signers != {}
        invariant done !! signers && done + signers == Signers(old(accounts))
        invariant accounts == PinnedAmong(old(accounts), done) && pins == Added(old(pins), done)
        decreases |signers|
      {
        var who :| who in signers;
        PinNext(old(accounts), old(pins), done, who);
        IncProviders(who);
        signers, done := signers - {who}, done + {who};
      }
      assert done == Signers(old(accounts));
    }

    method Carry(legacy: AccountId, account: AccountId) returns (nonce: nat)
      modifies this`accounts, this`pins
      ensures Contents() == CarryNonce(old(Contents()), legacy, account)
      ensures nonce == Account(account).nonce
    {
      nonce := Account(legacy).nonce;
      var current := Account(account).nonce;
      if nonce <= current {
        return current;
      }
      if current == 0 {
        IncProviders(account);
      }
      accounts := accounts[account := Account(account).(nonce := nonce)];
    }

    method Lift(who: AccountId)
      modifies this`accounts, this`pins
      ensures Contents() == LiftNonce(old(Contents()), who)
    {
      if !who.Revive? || Account(who).nonce != 0 {
        return;
      }
      var _ := Carry(Legacy(who.address), who);
    }

    /** The lift, the wrapped check and the pin. A rejected transaction is rolled back. */
    method CheckNonce(who: AccountId, nonce: nat) returns (accepts: bool)
      modifies this`accounts, this`pins, this`accepted
      ensures accepts == Accepts(old(Contents()), who, nonce)
      ensures Contents() == Sign(old(Contents()), who, nonce)
    {
      hide LiftNonce;
      var before := accounts;
      ghost var pinned := pins;
      Lift(who);
      var info := Account(who);
      if info.providers == 0 || info.nonce != nonce {
        accounts, pins := before, pinned;
        return false;
      }
      accounts := accounts[who := info.(nonce := info.nonce + 1)];
      if info.nonce == 0 {
        IncProviders(who);
      }
      accepted := accepted + [Signature(who, nonce)];
      return true;
    }

    method SetBalance(who: AccountId, free: nat)
      modifies this`accounts
      ensures Contents() == SetFree(old(Contents()), who, free)
    {
      var info := Account(who);
      if info.free == 0 && free > 0 {
        accounts := accounts[who := info.(free := free, providers := info.providers + 1)];
      } else if info.free > 0 && free == 0 {
        if info.providers <= 1 {
          accounts := accounts - {who};
        } else {
          accounts := accounts[who := info.(free := 0, providers := info.providers - 1)];
        }
      } else if info.free > 0 {
        accounts := accounts[who := info.(free := free)];
      }
    }

    /** Schedules go one by one; each removal also drops those that have finished. */
    method RemoveSchedules(legacy: AccountId, now: nat)
      modifies this`terms
      ensures Contents() == Unvest(old(Contents()), legacy)
    {
      ghost var start := Bindings(legacy);
      while Bindings(legacy).schedules != []
        invariant Bindings(legacy) == start.(schedules := Bindings(legacy).schedules, vestingLock := Bindings(legacy).vestingLock)
        invariant terms != old(terms) ==>
          && terms == old(terms)[legacy := Bindings(legacy)]
          && start.schedules != [] && Bindings(legacy).vestingLock == LockedSum(Bindings(legacy).schedules, now)
        decreases |Bindings(legacy).schedules|
      {
        var current := Bindings(legacy);
        LiveSum(current.schedules[1..], now, now);
        terms := terms[legacy := Write(current, current.schedules[1..], now)];
      }
    }

    method AddAll(account: AccountId, schedules: seq<Schedule>, now: nat) returns (result: Outcome<Terms>)
      ensures result == AddSchedules(cfg, Bindings(account), schedules, now)
    {
      var bindings := Bindings(account);
      var i := 0;
      while i < |schedules|
        invariant i <= |schedules| && AddSchedules(cfg, Bindings(account), schedules[..i], now) == Done(bindings)
      {
        assert schedules[..i + 1][..i] == schedules[..i];
        if LockedAt(schedules[i], now) != 0 {
          if |bindings.schedules| >= cfg.maxSchedules {
            AddFailsEarly(cfg, Bindings(account), schedules, i + 1, now);
            return Failed(AtMaxVestingSchedules);
          }
          bindings := Write(bindings, bindings.schedules + [schedules[i].(perBlock := Max(1, schedules[i].perBlock))], now);
        }
        i := i + 1;
      }
      assert schedules[..|schedules|] == schedules;
      return Done(bindings);
    }

    method OpenAccount(account: AccountId)
      modifies this`accounts
      ensures Contents() == Open(cfg, old(Contents()), account)
    {
      if Account(account).free + Account(account).reserved == 0 {
        SetBalance(account, cfg.deposit);
      }
    }

    method TransferTo(from: AccountId, to: AccountId, amount: nat)
      requires amount <= Account(from).free
      modifies this`accounts
      ensures Contents() == Transfer(old(Contents()), from, to, amount)
    {
      SetBalance(from, Account(from).free - amount);
      SetBalance(to, Account(to).free + amount);
    }

    /** On failure the caller rolls back. */
    method MoveFunds(legacy: AccountId, account: AccountId, now: nat) returns (result: Outcome<nat>)
      modifies this`accounts, this`terms
      ensures
        var moved := MoveBalance(cfg, old(Contents()), legacy, account, now);
        if moved.Done? then result == Done(old(Account(legacy)).free) && Contents() == moved.value
        else result == Failed(moved.failure)
    {
      var amount := Account(legacy).free;
      if amount == 0 {
        return Done(0);
      }
      hide Unvest, Open, Spendable, Transfer, AddSchedules, Get, TermsOf;
      var schedules := Bindings(legacy).schedules;
      RemoveSchedules(legacy, now);
      OpenAccount(account);
      var spendable := SpendableNow(legacy);
      if amount > spendable || amount > Account(legacy).free {
        return Failed(FundsUnavailable);
      }
      TransferTo(legacy, account, amount);
      var added := AddAll(account, schedules, now);
      if added.Failed? {
        return Failed(added.failure);
      }
      terms := terms[account := added.value];
      return Done(amount);
    }

    method SpendableNow(who: AccountId) returns (spendable: nat)
      ensures spendable == Spendable(cfg, Contents(), who)
    {
      var info, bindings := Account(who), Bindings(who);
      var frozen := Frozen(bindings);
      var consumers := info.consumers + if info.reserved > 0 || frozen > 0 then 1 else 0;
      var untouchable := SaturatingSub(frozen, info.reserved);
      if info.free > 0 && consumers != 0 && info.providers <= 1 {
        untouchable := Max(untouchable, cfg.deposit);
      }
      spendable := SaturatingSub(info.free, untouchable);
    }

    method MoveAccount(address: H160, now: nat) returns (result: Outcome<nat>)
      modifies this`accounts, this`terms, this`pins
      ensures
        var moved := MoveLegacy(cfg, old(Contents()), address, now);
        if moved.Done? then result.Done? && Contents() == moved.value
        else result == Failed(moved.failure)
    {
      var legacy, account := Legacy(address), Revive(address);
      var _ := Carry(legacy, account);
      ghost var carried := Contents();
      result := Done(0);
      if Account(legacy).reserved == 0 && Bindings(legacy).freeze == 0 && Bindings(legacy).lock == 0 {
        result := MoveFunds(legacy, account, now);
        if result.Failed? {
          return;
        }
      }
      var left := Account(legacy);
      var consumers := left.consumers + if left.reserved > 0 || Frozen(Bindings(legacy)) > 0 then 1 else 0;
      if consumers == 0 && left.free + left.reserved == 0 {
        accounts := accounts - {legacy};
      }
    }

    /** `claim`: the fee is fixed before the move and paid after it; a failure is rolled back. */
    method ClaimAddress(address: H160, now: nat) returns (result: Outcome<nat>)
      modifies this`accounts, this`terms, this`pins
      ensures
        var claim := Claim(cfg, old(Contents()), address, now);
        if claim.Done? then result.Done? && Contents() == claim.value
        else result == Failed(claim.failure) && Contents() == old(Contents())
    {
      var accounts', terms' := accounts, terms;
      ghost var pins' := pins;
      var legacy, account := Legacy(address), Revive(address);
      var fee := 0;
      if Account(legacy).reserved == 0 && Bindings(legacy).freeze == 0 && Bindings(legacy).lock == 0 {
        var spendable := SpendableNow(legacy);
        fee := if cfg.claimFee <= spendable then cfg.claimFee else spendable;
      }
      result := MoveAccount(address, now);
      if result.Failed? {
        accounts, terms, pins := accounts', terms', pins';
        return;
      }
      TakeFee(account, fee);
    }

    method TakeFee(account: AccountId, fee: nat)
      modifies this`accounts
      ensures Contents() == PayFee(cfg, old(Contents()), account, fee)
    {
      if fee == 0 {
        return;
      }
      var info, frozen := Account(account), Frozen(Bindings(account));
      var reducible := SaturatingSub(info.free, Max(SaturatingSub(frozen, info.reserved), cfg.deposit));
      var paid := if fee <= reducible then fee else reducible;
      if paid != 0 {
        SetBalance(account, SaturatingSub(info.free, paid));
      }
    }
  }

  ghost function Added(pins: multiset<AccountId>, done: set<AccountId>): multiset<AccountId> {
    pins + multiset(done)
  }

  lemma PinNext(accounts: map<AccountId, Info>, pins: multiset<AccountId>, done: set<AccountId>, who: AccountId)
    requires who in Signers(accounts) && who !in done
    ensures who in PinnedAmong(accounts, done) && PinnedAmong(accounts, done)[who] == accounts[who]
    ensures PinnedAmong(accounts, done)[who := accounts[who].(providers := accounts[who].providers + 1)]
         == PinnedAmong(accounts, done + {who})
    ensures Added(pins, done) + multiset{who} == Added(pins, done + {who})
  {
    assert multiset(done + {who}) == multiset(done) + multiset{who};
  }

  lemma PinNobody(accounts: map<AccountId, Info>)
    ensures PinnedAmong(accounts, {}) == accounts
  {
  }

  /** One failure is the failure of the whole. */
  lemma {:induction false} AddFailsEarly(cfg: Config, terms: Terms, schedules: seq<Schedule>, n: nat, now: nat)
    requires n <= |schedules| && AddSchedules(cfg, terms, schedules[..n], now).Failed?
    ensures AddSchedules(cfg, terms, schedules, now) == Failed(AtMaxVestingSchedules)
    decreases |schedules| - n
  {
    if n == |schedules| {
      assert schedules[..n] == schedules;
      AddFails(cfg, terms, schedules, now);
      var failure := AddSchedules(cfg, terms, schedules, now).failure;
      assert failure == FundsUnavailable || failure == AtMaxVestingSchedules;
    } else {
      assert schedules[..n + 1][..n] == schedules[..n];
      AddFailsEarly(cfg, terms, schedules, n + 1, now);
    }
  }
}
