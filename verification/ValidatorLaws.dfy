/** Stake, exits, kicks, cooldowns and the session set over every run of the life cycle. */
module ValidatorLaws {
  import opened Basics
  import opened Validator
  import opened ValidatorSafety

  // ---- Stake is never freed early -------------------------------------------------------------

  function Recorded(locks: map<Account, LockInfo>, who: Account): nat {
    if who in locks then locks[who].amount else 0
  }

  /** The currency lock is the recorded amount, and no lock runs longer than a fresh one. */
  ghost predicate Backed(cfg: Config, s: State, who: Account) {
    && Locked(s.currency, who) == Recorded(s.locks, who)
    && (who in s.locks ==> s.locks[who].expiryBlock <= SatAdd(s.now, cfg.lockDuration))
  }

  lemma ApplyBacked(cfg: Config, s: State, step: Step, who: Account)
    requires Backed(cfg, s, who)
    ensures Backed(cfg, Apply(cfg, s, step), who)
  {
    if step.Boundary? {
      BoundaryKeeps(cfg, s, step.keyed);
    }
  }

  /** A step before the expiry keeps the record at least as binding. */
  lemma StakeStep(cfg: Config, s: State, step: Step, who: Account)
    requires Backed(cfg, s, who) && who in s.locks && Apply(cfg, s, step).now < s.locks[who].expiryBlock
    ensures
      var t := Apply(cfg, s, step);
      who in t.locks && s.locks[who].amount <= t.locks[who].amount && s.locks[who].expiryBlock <= t.locks[who].expiryBlock
  {
    if step.Boundary? {
      BoundaryKeeps(cfg, s, step.keyed);
    }
  }

  /** Once a record has an amount and an expiry, the currency lock holds at least that amount in
      every later state before that block, whatever happens in between. */
  lemma {:induction false} StakeStays(cfg: Config, s: State, steps: seq<Step>, who: Account)
    requires Backed(cfg, s, who) && who in s.locks
    ensures
      var t := Run(cfg, s, steps);
      t.now < s.locks[who].expiryBlock ==> Locked(t.currency, who) >= s.locks[who].amount
    decreases |steps|
  {
    if steps != [] {
      var next := Apply(cfg, s, steps[0]);
      ApplyBacked(cfg, s, steps[0], who);
      RunGrows(cfg, next, steps[1..]);
      if next.now < s.locks[who].expiryBlock {
        StakeStep(cfg, s, steps[0], who);
        StakeStays(cfg, next, steps[1..], who);
      }
    }
  }

  lemma {:induction false} RunBacked(cfg: Config, s: State, steps: seq<Step>, who: Account)
    requires Backed(cfg, s, who)
    ensures Backed(cfg, Run(cfg, s, steps), who)
    decreases |steps|
  {
    if steps != [] {
      ApplyBacked(cfg, s, steps[0], who);
      RunBacked(cfg, Apply(cfg, s, steps[0]), steps[1..], who);
    }
  }

  /** The same over every run from genesis and every continuation of it. */
  lemma StakeNeverFreedEarly(cfg: Config, initial: seq<Account>, before: seq<Step>, after: seq<Step>, who: Account)
    requires who in Run(cfg, Genesis(cfg, initial), before).locks
    ensures
      var s := Run(cfg, Genesis(cfg, initial), before);
      var t := Run(cfg, s, after);
      && Locked(s.currency, who) == s.locks[who].amount
      && (t.now < s.locks[who].expiryBlock ==> Locked(t.currency, who) >= s.locks[who].amount)
  {
    RunBacked(cfg, Genesis(cfg, initial), before, who);
    StakeStays(cfg, Run(cfg, Genesis(cfg, initial), before), after, who);
  }

  /** A call of `lock` that succeeds queues the account, Active, behind a lock it can afford: no less
      than before, no less than the stake unless it is exempt, and for no less than the duration. */
  lemma JoinStakes(cfg: Config, s: State, who: Account, candidate: Candidate)
    requires Placed(cfg, s.locks, s.pending, s.desired) && Backed(cfg, s, who)
    requires LockError(cfg, s, who, candidate).None?
    ensures
      var t := Join(cfg, s, who, candidate);
      && t.pending == s.pending + [who] && IsActive(t.locks, who)
      && Locked(s.currency, who) <= Locked(t.currency, who) <= candidate.free
      && (who !in s.exempt ==> Locked(t.currency, who) >= cfg.lockAmount)
      && (who in s.exempt ==> Locked(t.currency, who) == Locked(s.currency, who))
      && t.locks[who].expiryBlock >= SatAdd(s.now, cfg.lockDuration)
      && (forall other | other != who :: Locked(t.currency, other) == Locked(s.currency, other))
  {
  }

  /** What a candidate has to lock: no less than it has locked, and the stake unless it is exempt. */
  function Stake(cfg: Config, s: State, who: Account): int {
    Max(Recorded(s.locks, who), if who in s.exempt then 0 else cfg.lockAmount)
  }

  /** `lock` queues precisely an account that is neither seated nor queued, for which there is room,
      with keys and identity, out of its cooldown, and with the stake to lock. It is then Active
      behind exactly that stake; nobody else is touched, and a refusal changes nothing. */
  lemma JoinExactly(cfg: Config, s: State, who: Account, candidate: Candidate)
    ensures
      var t := Join(cfg, s, who, candidate);
      (who !in s.pending && who in t.pending) <==>
        && who !in s.desired && who !in s.pending && |s.desired| + |s.pending| < cfg.maxValidators
        && candidate.hasKeys && candidate.identity
        && (who in s.cooldown ==> s.cooldown[who] < s.now)
        && candidate.free >= Stake(cfg, s, who)
    ensures
      var t := Join(cfg, s, who, candidate);
      if who !in s.pending && who in t.pending then
        && t.pending == s.pending + [who] && t.desired == s.desired && who !in t.cooldown
        && Locked(t.currency, who) == Stake(cfg, s, who)
        && who in t.locks
        && t.locks[who] == LockInfo(Stake(cfg, s, who), s.now,
                                    Max(if who in s.locks then s.locks[who].expiryBlock else 0,
                                        SatAdd(s.now, cfg.lockDuration)), Active)
        && (forall other | other != who ::
              && Locked(t.currency, other) == Locked(s.currency, other)
              && (other in t.locks <==> other in s.locks) && (other in s.locks ==> t.locks[other] == s.locks[other]))
      else t == s
  {
  }

  /** A refusal gives a reason that holds. */
  lemma RefusalIsTrue(cfg: Config, s: State, who: Account, candidate: Candidate)
    ensures
      match LockError(cfg, s, who, candidate)
      case Some(AlreadyValidator) => who in s.desired || who in s.pending
      case Some(TooManyValidators) => |s.desired| + |s.pending| >= cfg.maxValidators
      case Some(SessionKeysNotRegistered) => !candidate.hasKeys
      case Some(IdentityNotQualified) => !candidate.identity
      case Some(InCooldown) => who in s.cooldown && s.now <= s.cooldown[who]
      case Some(InsufficientBalance) => candidate.free < Stake(cfg, s, who)
      case Some(_) => false
      case None => who in Join(cfg, s, who, candidate).pending
  {
  }

  // ---- Blocks -----------------------------------------------------------------------------------

  /** A block releases precisely the locks whose expiry it has reached. Of the others it renews, to a
      full duration, precisely the Active ones whose term is an interval or more short of it. */
  lemma BeginExactly(cfg: Config, s: State, now: nat, who: Account)
    requires who in s.locks
    ensures
      var t, info := Begin(cfg, s, now), s.locks[who];
      && (who in t.locks <==> now < info.expiryBlock)
      && Locked(t.currency, who) == (if now < info.expiryBlock then Locked(s.currency, who) else 0)
      && (who in t.locks ==>
            t.locks[who] == info.(expiryBlock :=
              if info.status == Active && 0 < cfg.renewInterval
                 && info.expiryBlock + cfg.renewInterval <= now + cfg.lockDuration
              then SatAdd(now, cfg.lockDuration) else info.expiryBlock))
  {
  }

  // ---- Exits ----------------------------------------------------------------------------------

  /** No call of `lock` by `who` succeeds along the run. */
  ghost predicate NeverRejoins(cfg: Config, s: State, steps: seq<Step>, who: Account)
    decreases |steps|
  {
    steps != [] ==>
      && (steps[0].LockCall? && steps[0].who == who ==> LockError(cfg, s, who, steps[0].candidate).Some?)
      && NeverRejoins(cfg, Apply(cfg, s, steps[0]), steps[1..], who)
  }

  /** Released with its block: a record that is not Active ends at its expiry. */
  ghost predicate Leaving(s: State, who: Account, amount: nat, expiry: nat) {
    if s.now < expiry then
      && who in s.locks && s.locks[who].status != Active
      && s.locks[who].amount == amount && s.locks[who].expiryBlock == expiry
    else who !in s.locks
  }

  lemma LeavingStep(cfg: Config, s: State, step: Step, who: Account, amount: nat, expiry: nat)
    requires Leaving(s, who, amount, expiry)
    requires step.LockCall? && step.who == who ==> LockError(cfg, s, who, step.candidate).Some?
    ensures Leaving(Apply(cfg, s, step), who, amount, expiry)
  {
    if step.Boundary? {
      BoundaryKeeps(cfg, s, step.keyed);
      NotRevived(cfg, s, step.keyed, who);
    }
  }

  /** A boundary makes nobody Active. */
  lemma NotRevived(cfg: Config, s: State, keyed: set<Account>, who: Account)
    ensures IsActive(NewSession(cfg, s, keyed).locks, who) ==> IsActive(s.locks, who)
  {
    var judged := Judged(cfg, s);
    AdmitKeeps(cfg, Seating(StillActive(judged.locks, judged.desired), judged.(pending := [])), judged.pending, keyed);
  }

  lemma {:induction false} LeavingRun(cfg: Config, s: State, steps: seq<Step>, who: Account, amount: nat, expiry: nat)
    requires Leaving(s, who, amount, expiry) && NeverRejoins(cfg, s, steps, who)
    ensures Leaving(Run(cfg, s, steps), who, amount, expiry)
    decreases |steps|
  {
    if steps != [] {
      LeavingStep(cfg, s, steps[0], who, amount, expiry);
      LeavingRun(cfg, Apply(cfg, s, steps[0]), steps[1..], who, amount, expiry);
    }
  }

  /** An exit is for Active accounts only: it takes the account off the queue and leaves seats, stake
      and everybody else as they are. */
  lemma ExitExactly(cfg: Config, s: State, who: Account)
    requires Placed(cfg, s.locks, s.pending, s.desired)
    ensures
      var t := Exit(s, who);
      if IsActive(s.locks, who) then
        && t == s.(locks := t.locks, pending := t.pending)
        && t.locks == s.locks[who := s.locks[who].(status := ExitRequested)]
        && (forall w :: w in t.pending <==> w in s.pending && w != who)
      else t == s
    ensures ExitError(s, who) == None <==> IsActive(s.locks, who)
    ensures ExitError(s, who) == Some(NotValidator) <==> who !in s.locks
  {
    RemoveMembers(s.pending, who);
  }

  /** Renewal is on and comes before expiry. */
  predicate ValidConfig(cfg: Config) {
    0 < cfg.renewInterval < cfg.lockDuration
  }

  /** A lock never runs longer than a fresh one, and an Active one is never far from it. */
  ghost predicate InTerm(cfg: Config, now: nat, info: LockInfo) {
    && info.expiryBlock <= SatAdd(now, cfg.lockDuration)
    && (info.status == Active ==> now + cfg.lockDuration < info.expiryBlock + cfg.renewInterval)
  }

  ghost predicate AllInTerm(cfg: Config, s: State) {
    forall who {:trigger s.locks[who]} | who in s.locks :: InTerm(cfg, s.now, s.locks[who])
  }

  lemma ApplyInTerm(cfg: Config, s: State, step: Step)
    requires ValidConfig(cfg) && AllInTerm(cfg, s) && Apply(cfg, s, step).now + cfg.lockDuration <= U32_MAX
    ensures AllInTerm(cfg, Apply(cfg, s, step))
  {
    var t := Apply(cfg, s, step);
    NowGrows(cfg, s, step);
    if step.Boundary? {
      hide NewSession;
      BoundaryKeeps(cfg, s, step.keyed);
      forall who | who in t.locks ensures InTerm(cfg, t.now, t.locks[who]) {
        NotRevived(cfg, s, step.keyed, who);
        assert InTerm(cfg, s.now, s.locks[who]);
      }
    } else {
      forall who | who in t.locks ensures InTerm(cfg, t.now, t.locks[who]) {
        assert who in s.locks ==> InTerm(cfg, s.now, s.locks[who]);
        StepInTerm(cfg, s, step, who);
      }
    }
  }

  lemma StepInTerm(cfg: Config, s: State, step: Step, who: Account)
    requires ValidConfig(cfg) && !step.Boundary? && who in Apply(cfg, s, step).locks
    requires Apply(cfg, s, step).now + cfg.lockDuration <= U32_MAX
    requires who in s.locks ==> InTerm(cfg, s.now, s.locks[who])
    ensures InTerm(cfg, Apply(cfg, s, step).now, Apply(cfg, s, step).locks[who])
  {
  }

  /** Up to the last lock duration before block numbers saturate. */
  lemma {:induction false} RunInTerm(cfg: Config, s: State, steps: seq<Step>)
    requires ValidConfig(cfg) && AllInTerm(cfg, s) && Run(cfg, s, steps).now + cfg.lockDuration <= U32_MAX
    ensures AllInTerm(cfg, Run(cfg, s, steps))
    decreases |steps|
  {
    if steps != [] {
      var next := Apply(cfg, s, steps[0]);
      RunGrows(cfg, next, steps[1..]);
      ApplyInTerm(cfg, s, steps[0]);
      RunInTerm(cfg, next, steps[1..]);
    }
  }

  /** Over every run: a validator that exits at block `b` and does not rejoin keeps its whole stake
      locked up to one block in (b + LockDuration - RenewInterval, b + LockDuration] and is free
      from it on. */
  lemma ExitReleases(cfg: Config, initial: seq<Account>, before: seq<Step>, after: seq<Step>, who: Account)
    requires ValidConfig(cfg)
    requires
      var s := Run(cfg, Genesis(cfg, initial), before);
      && s.now + cfg.lockDuration <= U32_MAX && IsActive(s.locks, who)
      && NeverRejoins(cfg, Exit(s, who), after, who)
    ensures
      var s := Run(cfg, Genesis(cfg, initial), before);
      var t, release := Run(cfg, Exit(s, who), after), s.locks[who].expiryBlock;
      && s.now + cfg.lockDuration - cfg.renewInterval < release <= s.now + cfg.lockDuration
      && Locked(t.currency, who) == if t.now < release then s.locks[who].amount else 0
  {
    var s := Run(cfg, Genesis(cfg, initial), before);
    RunGrows(cfg, Genesis(cfg, initial), before);
    RunInTerm(cfg, Genesis(cfg, initial), before);
    RunBacked(cfg, Genesis(cfg, initial), before, who);
    assert InTerm(cfg, s.now, s.locks[who]);
    var left := Exit(s, who);
    ApplyBacked(cfg, s, ExitCall(who), who);
    LeavingRun(cfg, left, after, who, s.locks[who].amount, s.locks[who].expiryBlock);
    RunBacked(cfg, left, after, who);
  }

  // ---- Kicks ----------------------------------------------------------------------------------

  /** An Active account is kicked at a boundary precisely if it was reported for equivocation or
      its streak of offline sessions, this one included, is now full. */
  lemma KickedExactly(cfg: Config, s: State, keyed: set<Account>, who: Account)
    requires Sound(cfg, s) && IsActive(s.locks, who)
    ensures
      var t := NewSession(cfg, s, keyed);
      && who in t.locks
      && (t.locks[who].status == Kicked <==>
            who in s.equivocationNow || Streak(t.history, who) == Max(1, cfg.offlineThreshold))
  {
    BoundaryIs(cfg, s, keyed);
    JudgedLocks(cfg, s, who);
    JudgedCount(cfg, s, who);
    assert CountsStreak(cfg, s, who);
    StreakStep(s.history, Judged(cfg, s).history[|s.history|], who);
    hide Judged, NewSession, StillActive, Promoted, Streak, OfflineCount;
  }

  /** Nobody is kicked outside a boundary, and nobody who is not Active at one. */
  lemma KickedOnlyThere(cfg: Config, s: State, step: Step, who: Account)
    requires who in Apply(cfg, s, step).locks && Apply(cfg, s, step).locks[who].status == Kicked
    requires !(who in s.locks && s.locks[who].status == Kicked)
    ensures step.Boundary? && IsActive(s.locks, who)
    ensures
      var t := Apply(cfg, s, step);
      who in t.cooldown && t.cooldown[who] == SatAdd(s.now, cfg.rejoinCooldownPeriod)
  {
    if step.Boundary? {
      BoundaryKicks(cfg, s, step.keyed, who);
      hide NewSession;
    }
  }

  lemma BoundaryKicks(cfg: Config, s: State, keyed: set<Account>, who: Account)
    ensures
      var t := NewSession(cfg, s, keyed);
      who in t.locks && t.locks[who].status == Kicked && !(who in s.locks && s.locks[who].status == Kicked) ==>
        && IsActive(s.locks, who)
        && who in t.cooldown && t.cooldown[who] == SatAdd(s.now, cfg.rejoinCooldownPeriod)
  {
    var flagged := AfterEquivocations(cfg, s);
    var judged := AfterOffline(cfg, flagged);
    AdmitKeeps(cfg, Seating(StillActive(judged.locks, judged.desired), judged.(pending := [])), judged.pending, keyed);
    KickStarts(cfg, s, Equivocators(s), who);
    KickStarts(cfg, flagged, Absent(cfg, flagged, Members(flagged.desired)), who);
    hide Kick, Equivocators, Absent, Flagged, Counted, Admit;
  }

  /** A kick starts the cooldown of those it kicks and leaves the others' locks and cooldowns. */
  lemma KickStarts(cfg: Config, s: State, kicked: set<Account>, who: Account)
    requires forall w | w in kicked :: IsActive(s.locks, w)
    ensures
      var t := Kick(cfg, s, kicked);
      && (who in t.locks <==> who in s.locks)
      && (who in kicked ==> IsActive(s.locks, who) && who in t.cooldown
                            && t.cooldown[who] == SatAdd(s.now, cfg.rejoinCooldownPeriod))
      && (who !in kicked ==>
            && (who in s.locks ==> t.locks[who] == s.locks[who])
            && (who in t.cooldown <==> who in s.cooldown)
            && (who in s.cooldown ==> t.cooldown[who] == s.cooldown[who]))
  {
  }

  /** Reports reach the boundary: an Active account reported for equivocation is kicked, and a seated
      one reported offline has one more session in its streak. Reported or not, an account that is
      not seated has none. */
  lemma ReportsCount(cfg: Config, s: State, keyed: set<Account>, who: Account)
    requires Sound(cfg, s) && IsActive(s.locks, who)
    ensures
      var t := NewSession(cfg, NoteEquivocation(s, who), keyed);
      who in t.locks && t.locks[who].status == Kicked
    ensures
      var t := NewSession(cfg, NoteOffline(s, who), keyed);
      who !in s.equivocationNow ==> Streak(t.history, who) == if who in s.desired then Streak(s.history, who) + 1 else 0
  {
    var flagged, absent := NoteEquivocation(s, who), NoteOffline(s, who);
    ReportSound(cfg, s, flagged);
    ReportSound(cfg, s, absent);
    KickedExactly(cfg, flagged, keyed, who);
    BoundaryIs(cfg, absent, keyed);
    JudgedCount(cfg, absent, who);
    StreakStep(s.history, Judged(cfg, absent).history[|s.history|], who);
    hide Judged, NewSession, Streak;
  }

  /** A block takes no offline mark or counter away, not even from an account it releases; the next
      boundary clears all marks. */
  lemma MarksStay(cfg: Config, s: State, now: nat, keyed: set<Account>)
    ensures Begin(cfg, s, now).offlineNow == s.offlineNow && Begin(cfg, s, now).offlineCount == s.offlineCount
    ensures NewSession(cfg, s, keyed).offlineNow == {} && NewSession(cfg, s, keyed).equivocationNow == {}
  {
    var judged := Judged(cfg, s);
    AdmitKeeps(cfg, Seating(StillActive(judged.locks, judged.desired), judged.(pending := [])), judged.pending, keyed);
    MarksShrink(cfg, Seating(StillActive(judged.locks, judged.desired), judged.(pending := [])), judged.pending, keyed);
  }

  lemma {:induction false} MarksShrink(cfg: Config, seating: Seating, candidates: seq<Account>, keyed: set<Account>)
    ensures Admit(cfg, seating, candidates, keyed).state.offlineNow <= seating.state.offlineNow
    decreases |candidates|
  {
    if candidates != [] {
      MarksShrink(cfg, seating, candidates[..|candidates| - 1], keyed);
    }
  }

  /** An account that exits and is then reported offline is released with the mark in place. */
  lemma ReleasedStillMarked()
    ensures
      var cfg := Config(0, 2, 1, 1, 1, 1);
      var s := Run(cfg, Genesis(cfg, [7]), [ExitCall(7), OfflineReport(7), BeginBlock, BeginBlock]);
      7 !in s.locks && 7 in s.offlineNow
  {
    var cfg := Config(0, 2, 1, 1, 1, 1);
    assert [7][..0] == [] && Distinct([]) == [] && Distinct([7]) == [7];
    var g := Genesis(cfg, [7]);
    var a := Apply(cfg, g, ExitCall(7));
    var b := Apply(cfg, a, OfflineReport(7));
    var c := Apply(cfg, b, BeginBlock);
    var d := Apply(cfg, c, BeginBlock);
    assert a.locks[7] == LockInfo(0, 0, 2, ExitRequested);
    assert c.locks[7] == a.locks[7];
    FourSteps(cfg, g, ExitCall(7), OfflineReport(7), BeginBlock, BeginBlock);
  }

  lemma FourSteps(cfg: Config, s: State, a: Step, b: Step, c: Step, d: Step)
    ensures Run(cfg, s, [a, b, c, d]) == Apply(cfg, Apply(cfg, Apply(cfg, Apply(cfg, s, a), b), c), d)
  {
    hide Apply;
    assert [a, b, c, d][1..] == [b, c, d] && [b, c, d][1..] == [c, d] && [c, d][1..] == [d] && [d][1..] == [];
    var t := Apply(cfg, Apply(cfg, s, a), b);
    assert Run(cfg, t, [c, d]) == Run(cfg, Apply(cfg, t, c), [d]);
  }

  lemma CooldownStep(cfg: Config, s: State, step: Step, who: Account, deadline: nat)
    requires who in s.cooldown && s.cooldown[who] >= deadline && deadline <= SatAdd(s.now, cfg.rejoinCooldownPeriod)
    requires s.now <= deadline
    ensures
      var t := Apply(cfg, s, step);
      who in t.cooldown && t.cooldown[who] >= deadline && deadline <= SatAdd(t.now, cfg.rejoinCooldownPeriod)
  {
    NowGrows(cfg, s, step);
    if step.Boundary? {
      BoundaryCooldown(cfg, s, step.keyed, who);
      hide NewSession;
    }
  }

  /** A boundary ends no cooldown; it only starts them. */
  lemma BoundaryCooldown(cfg: Config, s: State, keyed: set<Account>, who: Account)
    requires who in s.cooldown
    ensures
      var t := NewSession(cfg, s, keyed);
      who in t.cooldown && t.cooldown[who] in {s.cooldown[who], SatAdd(s.now, cfg.rejoinCooldownPeriod)}
  {
    var judged := Judged(cfg, s);
    AdmitKeeps(cfg, Seating(StillActive(judged.locks, judged.desired), judged.(pending := [])), judged.pending, keyed);
  }

  lemma {:induction false} CooldownRun(cfg: Config, s: State, steps: seq<Step>, who: Account, deadline: nat)
    requires who in s.cooldown && s.cooldown[who] >= deadline && deadline <= SatAdd(s.now, cfg.rejoinCooldownPeriod)
    ensures
      var t := Run(cfg, s, steps);
      t.now <= deadline ==> who in t.cooldown && t.cooldown[who] >= deadline
    decreases |steps|
  {
    if steps != [] {
      NowGrows(cfg, s, steps[0]);
      var next := Apply(cfg, s, steps[0]);
      RunGrows(cfg, next, steps[1..]);
      if s.now <= deadline {
        CooldownStep(cfg, s, steps[0], who, deadline);
        CooldownRun(cfg, next, steps[1..], who, deadline);
      }
    }
  }

  /** After a kick at block `b` no call of `lock` by that account succeeds up to and including block
      b + RejoinCooldownPeriod. */
  lemma NoLockInCooldown(cfg: Config, s: State, keyed: set<Account>, steps: seq<Step>, who: Account,
                         candidate: Candidate)
    requires IsActive(s.locks, who)
    requires
      var kicked := Apply(cfg, s, Boundary(keyed));
      who in kicked.locks && kicked.locks[who].status == Kicked
    requires Run(cfg, Apply(cfg, s, Boundary(keyed)), steps).now <= U32_MAX
    ensures
      var t := Run(cfg, Apply(cfg, s, Boundary(keyed)), steps);
      LockError(cfg, t, who, candidate).None? ==> t.now > s.now + cfg.rejoinCooldownPeriod
  {
    KickedOnlyThere(cfg, s, Boundary(keyed), who);
    BoundaryKeeps(cfg, s, keyed);
    CooldownRun(cfg, Apply(cfg, s, Boundary(keyed)), steps, who, SatAdd(s.now, cfg.rejoinCooldownPeriod));
  }

  // ---- The session set ------------------------------------------------------------------------

  lemma SessionStep(cfg: Config, s: State, step: Step)
    ensures s.session != [] ==> Apply(cfg, s, step).session != []
  {
  }

  /** The set handed to the session layer, once it has members, always has some. */
  lemma {:induction false} SessionNeverEmpties(cfg: Config, s: State, steps: seq<Step>)
    requires s.session != []
    ensures Run(cfg, s, steps).session != []
    decreases |steps|
  {
    if steps != [] {
      SessionStep(cfg, s, steps[0]);
      SessionNeverEmpties(cfg, Apply(cfg, s, steps[0]), steps[1..]);
    }
  }
}
