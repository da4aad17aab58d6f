/** The storage of pallets/validator/src/lib.rs and the hooks and calls that update it, loop by
    loop, each proved to be the step of the life cycle it stands for. */
module ValidatorPallet {
  import opened Basics
  import opened Validator

  class Pallet {
    const cfg: Config
    var now: nat
    var locks: map<Account, LockInfo>
    var pending: seq<Account>
    var desired: seq<Account>
    var exempt: set<Account>
    var cooldown: map<Account, nat>
    var offlineCount: map<Account, nat>
    var offlineNow: set<Account>
    var equivocationNow: set<Account>
    var currency: map<Account, nat>
    var session: seq<Account>
    ghost var history: seq<set<Account>>

    ghost function Contents(): State
      reads this
    {
      State(now, locks, pending, desired, exempt, cooldown, offlineCount, offlineNow, equivocationNow, currency,
            session, history)
    }

    /** Genesis: repeated accounts are skipped, and too many of them abort the build. */
    constructor (cfg: Config, initial: seq<Account>)
      requires |Distinct(initial)| <= cfg.maxValidators
      ensures this.cfg == cfg && Contents() == Genesis(cfg, initial)
    {
      this.cfg := cfg;
      now := 0;
      pending, cooldown, offlineCount, offlineNow, equivocationNow, currency, history := [], map[], map[], {}, {}, map[], [];
      var records: map<Account, LockInfo>, exempted: set<Account>, active := map[], {}, [];
      var i := 0;
      while i < |initial|
        invariant i <= |initial| && active == Distinct(initial[..i])
        invariant records == map who | who in active :: LockInfo(0, 0, SatAdd(0, cfg.lockDuration), Active)
        invariant exempted == set who | who in active
      {
        var who := initial[i];
        assert initial[..i + 1][..i] == initial[..i];
        if who !in records {
          records := records[who := LockInfo(0, 0, SatAdd(0, cfg.lockDuration), Active)];
          exempted := exempted + {who};
          active := active + [who];
        }
        i := i + 1;
      }
      assert initial[..|initial|] == initial;
      locks, exempt, desired, session := records, exempted, active, active;
    }

    /** One scan collects what is due, in whatever order the map yields it; two passes apply it. */
    method OnInitialize()
      requires now < U32_MAX
      modifies this
      ensures Contents() == Begin(cfg, old(Contents()), old(now) + 1)
    {
      now := now + 1;
      var release, renew := CollectDue();
      ReleaseAll(release);
      RenewAll(renew);
      SweepParts(cfg, old(locks), now);
    }

    method ReleaseAll(due: set<Account>)
      modifies this`locks, this`currency
      ensures locks == old(locks) - due && currency == old(currency) - due
    {
      var release := due;
      while release != {}
        invariant release <= due && locks == old(locks) - (due - release) && currency == old(currency) - (due - release)
        decreases |release|
      {
        var who :| who in release;
        currency := currency - {who};
        locks := locks - {who};
        release := release - {who};
      }
    }

    method CollectDue() returns (release: set<Account>, renew: set<Account>)
      ensures release == Expired(locks, now) && renew == DueRenewal(cfg, locks, now)
    {
      hide Renews;
      release, renew := {}, {};
      var todo := locks.Keys;
      while todo != {}
        invariant todo <= locks.Keys
        invariant forall w :: w in release <==> w !in todo && w in Expired(locks, now)
        invariant forall w :: w in renew <==> w !in todo && w in DueRenewal(cfg, locks, now)
        decreases |todo|
      {
        var who :| who in todo;
        todo := todo - {who};
        var info := locks[who];
        if info.expiryBlock <= now {
          release := release + {who};
        } else {
          var due := RenewalDue(info);
          if due {
            renew := renew + {who};
          }
        }
      }
    }

    method RenewalDue(info: LockInfo) returns (due: bool)
      ensures due == Renews(cfg, info, now)
    {
      if cfg.renewInterval == 0 || info.status != Active {
        return false;
      }
      var remaining := SaturatingSub(info.expiryBlock, now);
      var elapsed := SaturatingSub(cfg.lockDuration, remaining);
      due := elapsed >= cfg.renewInterval;
    }

    method RenewAll(due: set<Account>)
      modifies this`locks
      ensures locks == Extended(old(locks), due, SatAdd(now, cfg.lockDuration))
    {
      var renew := due;
      while renew != {}
        invariant renew <= due && locks == Extended(old(locks), due - renew, SatAdd(now, cfg.lockDuration))
        decreases |renew|
      {
        var who :| who in renew;
        if who in locks {
          locks := locks[who := locks[who].(expiryBlock := SatAdd(now, cfg.lockDuration))];
        }
        renew := renew - {who};
      }
    }

    method Lock(who: Account, candidate: Candidate) returns (error: Option<Error>)
      modifies this
      ensures error == LockError(cfg, old(Contents()), who, candidate)
      ensures Contents() == Join(cfg, old(Contents()), who, candidate)
    {
      if who in desired || who in pending {
        return Some(AlreadyValidator);
      }
      if |desired| + |pending| >= cfg.maxValidators {
        return Some(TooManyValidators);
      }
      if !candidate.hasKeys {
        return Some(SessionKeysNotRegistered);
      }
      if !candidate.identity {
        return Some(IdentityNotQualified);
      }
      if who in cooldown && cooldown[who] >= now {
        return Some(InCooldown);
      }
      var amount := if who in exempt then 0 else cfg.lockAmount;
      var expiry := SatAdd(now, cfg.lockDuration);
      if who in locks {
        amount := Max(locks[who].amount, amount);
        expiry := Max(locks[who].expiryBlock, expiry);
      }
      if candidate.free < amount {
        return Some(InsufficientBalance);
      }
      cooldown := cooldown - {who};
      pending := TryPush(pending, cfg.maxValidators, who);
      currency := SetLock(currency, who, amount);
      locks := locks[who := LockInfo(amount, now, expiry, Active)];
      return None;
    }

    method RequestExit(who: Account) returns (error: Option<Error>)
      modifies this
      ensures error == ExitError(old(Contents()), who)
      ensures Contents() == Exit(old(Contents()), who)
    {
      if who !in locks {
        return Some(NotValidator);
      }
      if locks[who].status != Active {
        return Some(InvalidStatus);
      }
      locks := locks[who := locks[who].(status := ExitRequested)];
      var i := 0;
      while i < |pending| && pending[i] != who
        invariant i <= |pending| && who !in pending[..i]
      {
        i := i + 1;
      }
      RemoveAt(pending, who, i);
      if i < |pending| {
        pending := pending[..i] + pending[i + 1..];
      }
      return None;
    }

    method SetStakeExempt(who: Account, granted: bool)
      modifies this`exempt
      ensures Contents() == SetExempt(old(Contents()), who, granted)
    {
      if granted {
        exempt := exempt + {who};
      } else {
        exempt := exempt - {who};
      }
    }

    method ReportOffline(who: Account)
      modifies this`offlineNow
      ensures Contents() == NoteOffline(old(Contents()), who)
    {
      if who !in locks {
        return;
      }
      offlineNow := offlineNow + {who};
    }

    method ReportEquivocation(who: Account)
      modifies this`equivocationNow
      ensures Contents() == NoteEquivocation(old(Contents()), who)
    {
      if !IsActive(locks, who) {
        return;
      }
      if who in equivocationNow {
        assert equivocationNow == equivocationNow + {who};
        return;
      }
      equivocationNow := equivocationNow + {who};
    }

    method KickValidator(who: Account) returns (kicked: bool)
      modifies this`locks, this`cooldown, this`offlineCount, this`offlineNow
      ensures kicked == IsActive(old(locks), who)
      ensures Contents() == KickOne(cfg, old(Contents()), who)
    {
      if !IsActive(locks, who) {
        return false;
      }
      locks := locks[who := locks[who].(status := Kicked)];
      cooldown := cooldown[who := SatAdd(now, cfg.rejoinCooldownPeriod)];
      offlineCount := offlineCount - {who};
      offlineNow := offlineNow - {who};
      KickParts(old(locks), old(cooldown), who, SatAdd(now, cfg.rejoinCooldownPeriod));
      return true;
    }

    /** The flagged accounts, in whatever order the map drains. */
    method ProcessEquivocations()
      modifies this
      ensures Contents() == AfterEquivocations(cfg, old(Contents()))
    {
      var flagged := equivocationNow;
      equivocationNow := {};
      ghost var start := Contents();
      ghost var done: set<Account> := {};
      assert ActiveAmong(start.locks, done) == {};
      KickNobody(cfg, start);
      while flagged != {}
        invariant done + flagged == old(equivocationNow) && done !! flagged
        invariant Contents() == Kick(cfg, start, ActiveAmong(start.locks, done))
        decreases |flagged|
      {
        var who :| who in flagged;
        KickNext(cfg, start, done, who);
        var _ := KickValidator(who);
        flagged, done := flagged - {who}, done + {who};
      }
      assert ActiveAmong(start.locks, done) == Equivocators(old(Contents()));
    }

    /** One seated account: only an Active one is counted. */
    method CountSession(who: Account)
      modifies this`locks, this`cooldown, this`offlineCount, this`offlineNow
      ensures Contents() == CountOne(cfg, old(Contents()), who)
    {
      if !IsActive(locks, who) {
        offlineCount := offlineCount - {who};
        return;
      }
      if who !in offlineNow {
        if who in offlineCount {
          offlineCount := offlineCount - {who};
        }
        assert offlineCount == old(offlineCount) - {who};
        return;
      }
      offlineNow := offlineNow - {who};
      var count := SatAdd(if who in offlineCount then offlineCount[who] else 0, 1);
      if count < cfg.offlineThreshold {
        offlineCount := offlineCount[who := count];
        return;
      }
      var _ := KickValidator(who);
    }

    method ProcessOfflineCounters()
      requires NoDuplicates(desired)
      modifies this
      ensures Contents() == AfterOffline(cfg, old(Contents()))
    {
      var active := desired;
      ghost var start := Contents();
      CountedNobody(cfg, start);
      assert Members(active[..0]) == {};
      var i := 0;
      while i < |active|
        invariant i <= |active| && Contents() == CountedOffline(cfg, start, Members(active[..i]))
      {
        assert Members(active[..i + 1]) == Members(active[..i]) + {active[i]};
        CountedNext(cfg, start, Members(active[..i]), active[i]);
        CountSession(active[i]);
        i := i + 1;
      }
      assert active[..|active|] == active;
      history := history + [Flagged(start, Members(active))];
      offlineNow := {};
    }

    method KeepActive(previous: seq<Account>) returns (next: seq<Account>)
      requires |previous| <= cfg.maxValidators
      ensures next == StillActive(locks, previous)
    {
      next := [];
      var i := 0;
      while i < |previous|
        invariant i <= |previous| && |next| <= i && next == StillActive(locks, previous[..i])
      {
        assert previous[..i + 1][..i] == previous[..i];
        if IsActive(locks, previous[i]) {
          next := TryPush(next, cfg.maxValidators, previous[i]);
        }
        i := i + 1;
      }
      assert previous[..|previous|] == previous;
    }

    /** One candidate: seated, dropped, or passed over. */
    method AdmitCandidate(seats: seq<Account>, who: Account, keyed: set<Account>) returns (next: seq<Account>)
      modifies this`locks, this`offlineCount, this`offlineNow
      ensures Seating(next, Contents()) == AdmitOne(cfg, Seating(seats, old(Contents())), who, keyed)
    {
      next := seats;
      if !IsActive(locks, who) || who in seats {
        return;
      }
      if who !in keyed || |seats| >= cfg.maxValidators {
        locks := locks[who := locks[who].(status := ExitRequested)];
        offlineCount := offlineCount - {who};
        offlineNow := offlineNow - {who};
        return;
      }
      next := TryPush(seats, cfg.maxValidators, who);
    }

    method FillSeats(previous: seq<Account>, keyed: set<Account>) returns (next: seq<Account>)
      requires |previous| <= cfg.maxValidators
      modifies this`locks, this`pending, this`offlineCount, this`offlineNow
      ensures
        var seating := Admit(cfg, Seating(StillActive(old(locks), previous), old(Contents()).(pending := [])),
                             old(pending), keyed);
        Contents() == seating.state && next == seating.next
    {
      hide AdmitOne, StillActive;
      next := KeepActive(previous);
      var candidates := pending;
      pending := [];
      ghost var start := Seating(next, Contents());
      var i := 0;
      while i < |candidates|
        invariant i <= |candidates| && Seating(next, Contents()) == Admit(cfg, start, candidates[..i], keyed)
      {
        assert candidates[..i + 1][..i] == candidates[..i];
        next := AdmitCandidate(next, candidates[i], keyed);
        i := i + 1;
      }
      assert candidates[..|candidates|] == candidates;
    }

    /** The set is handed over unless it is the same, or empty while the previous one was not. */
    method StartSession(keyed: set<Account>) returns (handed: Option<seq<Account>>)
      requires NoDuplicates(desired) && |desired| <= cfg.maxValidators
      modifies this
      ensures Contents() == NewSession(cfg, old(Contents()), keyed)
      ensures session == if handed.Some? then handed.value else old(session)
    {
      ProcessEquivocations();
      ProcessOfflineCounters();
      var previous := desired;
      var next := FillSeats(previous, keyed);
      desired := next;
      if next == previous {
        return None;
      }
      if next == [] && previous != [] {
        return None;
      }
      session := next;
      return Some(next);
    }
  }

  ghost function DueRenewal(cfg: Config, locks: map<Account, LockInfo>, now: nat): set<Account> {
    set who | who in locks && now < locks[who].expiryBlock && Renews(cfg, locks[who], now)
  }

  ghost function Extended(locks: map<Account, LockInfo>, due: set<Account>, expiry: nat): map<Account, LockInfo> {
    map who | who in locks :: if who in due then locks[who].(expiryBlock := expiry) else locks[who]
  }

  lemma SweepParts(cfg: Config, locks: map<Account, LockInfo>, now: nat)
    ensures Extended(locks - Expired(locks, now), DueRenewal(cfg, locks, now), SatAdd(now, cfg.lockDuration))
         == Unexpired(cfg, locks, now)
  {
    hide Renews, SatAdd;
  }

  lemma {:induction false} RemoveAt(queue: seq<Account>, who: Account, i: nat)
    requires i <= |queue| && who !in queue[..i] && (i < |queue| ==> queue[i] == who)
    ensures Remove(queue, who) == if i < |queue| then queue[..i] + queue[i + 1..] else queue
  {
    if i > 0 {
      var rest := queue[1..];
      assert queue[0] in queue[..i] && rest[..i - 1] == queue[1..i];
      RemoveAt(rest, who, i - 1);
      assert queue == [queue[0]] + rest;
      if i < |queue| {
        assert queue[..i] == [queue[0]] + rest[..i - 1] && queue[i + 1..] == rest[i..];
      }
    }
  }

  lemma KickParts(locks: map<Account, LockInfo>, cooldown: map<Account, nat>, who: Account, deadline: nat)
    requires who in locks
    ensures locks[who := locks[who].(status := Kicked)] == KickedLocks(locks, {who})
    ensures cooldown[who := deadline] == cooldown + Deadlines({who}, deadline)
  {
  }

  lemma KickNobody(cfg: Config, s: State)
    ensures Kick(cfg, s, {}) == s
  {
    assert KickedLocks(s.locks, {}) == s.locks;
    assert s.cooldown + Deadlines({}, SatAdd(s.now, cfg.rejoinCooldownPeriod)) == s.cooldown;
    assert s.offlineCount - {} == s.offlineCount;
  }

  lemma KickMore(cfg: Config, s: State, first: set<Account>, second: set<Account>)
    ensures Kick(cfg, s, first + second) == Kick(cfg, Kick(cfg, s, first), second)
  {
    assert KickedLocks(s.locks, first + second) == KickedLocks(KickedLocks(s.locks, first), second);
    var deadline := SatAdd(s.now, cfg.rejoinCooldownPeriod);
    assert s.cooldown + Deadlines(first + second, deadline)
        == s.cooldown + Deadlines(first, deadline) + Deadlines(second, deadline);
    assert s.offlineCount - (first + second) == s.offlineCount - first - second;
  }

  /** Kicks are independent, so their order does not matter. */
  lemma KickNext(cfg: Config, s: State, done: set<Account>, who: Account)
    requires who !in done
    ensures Kick(cfg, s, ActiveAmong(s.locks, done + {who})) == KickOne(cfg, Kick(cfg, s, ActiveAmong(s.locks, done)), who)
  {
    var before, after := ActiveAmong(s.locks, done), ActiveAmong(s.locks, done + {who});
    assert IsActive(Kick(cfg, s, before).locks, who) <==> IsActive(s.locks, who);
    if IsActive(s.locks, who) {
      assert after == before + {who};
      KickMore(cfg, s, before, {who});
    } else {
      assert after == before;
    }
  }

  lemma CountedNobody(cfg: Config, s: State)
    ensures CountedOffline(cfg, s, {}) == s
  {
    assert Absent(cfg, s, {}) == {} && ActiveAmong(s.locks, {}) == {};
    KickNobody(cfg, s);
    assert Counted(cfg, s, {}) == s.offlineCount;
  }

  /** So are the counters of different accounts. */
  lemma CountedNext(cfg: Config, s: State, done: set<Account>, who: Account)
    requires who !in done
    ensures CountedOffline(cfg, s, done + {who}) == CountOne(cfg, CountedOffline(cfg, s, done), who)
  {
    var t := CountedOffline(cfg, s, done);
    SameView(cfg, s, done, who);
    CountedStep(cfg, s, done, who);
    NowStep(s, done, who);
    var before, after := Absent(cfg, s, done), Absent(cfg, s, done + {who});
    if IsAbsent(cfg, s, who) {
      assert after == before + {who};
      KickMore(cfg, s, before, {who});
    } else {
      assert after == before;
    }
    hide Counted, Absent, ActiveAmong, KickedLocks, Deadlines, SatAdd, OfflineCount;
  }

  /** What has been done to the others does not show on `who`. */
  lemma SameView(cfg: Config, s: State, done: set<Account>, who: Account)
    requires who !in done
    ensures
      var t := CountedOffline(cfg, s, done);
      && (IsActive(t.locks, who) <==> IsActive(s.locks, who)) && (IsFlagged(t, who) <==> IsFlagged(s, who))
      && OfflineCount(t, who) == OfflineCount(s, who)
  {
  }

  lemma CountedStep(cfg: Config, s: State, done: set<Account>, who: Account)
    requires who !in done
    ensures Counted(cfg, s, done + {who}) ==
      if IsFlagged(s, who) && !IsAbsent(cfg, s, who) then Counted(cfg, s, done)[who := SatAdd(OfflineCount(s, who), 1)]
      else Counted(cfg, s, done) - {who}
  {
    hide IsFlagged, IsAbsent, OfflineCount, SatAdd;
  }

  lemma NowStep(s: State, done: set<Account>, who: Account)
    ensures s.offlineNow - ActiveAmong(s.locks, done + {who}) ==
      if IsFlagged(s, who) then s.offlineNow - ActiveAmong(s.locks, done) - {who}
      else s.offlineNow - ActiveAmong(s.locks, done)
  {
  }
}
