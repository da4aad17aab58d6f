/** What every run of the validator life cycle keeps. */
module ValidatorSafety {
  import opened Basics
  import opened Validator

  datatype Step =
    | BeginBlock
    | LockCall(who: Account, candidate: Candidate)
    | ExitCall(who: Account)
    | ExemptCall(who: Account, exempt: bool)
    | OfflineReport(who: Account)
    | EquivocationReport(who: Account)
    | Boundary(keyed: set<Account>)

  function Apply(cfg: Config, s: State, step: Step): State {
    match step
    case BeginBlock => if s.now < U32_MAX then Begin(cfg, s, s.now + 1) else s
    case LockCall(who, candidate) => Join(cfg, s, who, candidate)
    case ExitCall(who) => Exit(s, who)
    case ExemptCall(who, exempt) => SetExempt(s, who, exempt)
    case OfflineReport(who) => NoteOffline(s, who)
    case EquivocationReport(who) => NoteEquivocation(s, who)
    case Boundary(keyed) => NewSession(cfg, s, keyed)
  }

  function Run(cfg: Config, s: State, steps: seq<Step>): State
    decreases |steps|
  {
    if steps == [] then s else Run(cfg, Apply(cfg, s, steps[0]), steps[1..])
  }

  // ---- The invariant --------------------------------------------------------------------------

  /** Queue and seats: no account twice, none in both, room for all; a queued account whose lock
      has not run out is Active, every Active account is in one of them, and no Kicked account is
      in either. */
  ghost predicate Placed(cfg: Config, locks: map<Account, LockInfo>, pending: seq<Account>, desired: seq<Account>) {
    && NoDuplicates(pending) && NoDuplicates(desired) && |pending| + |desired| <= cfg.maxValidators
    && (forall who | who in pending :: who !in desired && (who in locks ==> IsActive(locks, who)))
    && (forall who | IsActive(locks, who) :: who in pending || who in desired)
    && (forall who | who in desired && who in locks :: locks[who].status != Kicked)
  }

  /** The latest consecutive boundaries at which the account was seated, Active and reported. */
  ghost function Streak(history: seq<set<Account>>, who: Account): nat {
    if history == [] || who !in history[|history| - 1] then 0 else 1 + Streak(history[..|history| - 1], who)
  }

  ghost predicate CountsStreak(cfg: Config, s: State, who: Account) {
    && OfflineCount(s, who) == (if who in s.desired then Streak(s.history, who) else 0)
    && OfflineCount(s, who) < Max(1, cfg.offlineThreshold)
  }

  ghost predicate Counters(cfg: Config, s: State) {
    forall who :: CountsStreak(cfg, s, who)
  }

  ghost predicate SessionFollows(s: State) {
    s.desired != [] ==> s.session == s.desired
  }

  ghost predicate Sound(cfg: Config, s: State) {
    && Placed(cfg, s.locks, s.pending, s.desired)
    && Counters(cfg, s)
    && SessionFollows(s)
  }

  lemma {:induction false} DistinctSound(accounts: seq<Account>)
    ensures NoDuplicates(Distinct(accounts))
  {
    if accounts != [] {
      DistinctSound(accounts[..|accounts| - 1]);
    }
  }

  lemma {:induction false} DistinctMembers(accounts: seq<Account>)
    ensures forall who :: who in Distinct(accounts) <==> who in accounts
    ensures NoDuplicates(accounts) ==> Distinct(accounts) == accounts
  {
    if accounts != [] {
      var front, last := accounts[..|accounts| - 1], accounts[|accounts| - 1];
      DistinctMembers(front);
      assert accounts == front + [last];
    }
  }

  /** Genesis seats the initial accounts, in order, without stake and exempt from it, and hands them
      to the session layer. */
  lemma GenesisSeats(cfg: Config, initial: seq<Account>)
    ensures
      var s := Genesis(cfg, initial);
      && (forall who ::
            && (who in s.desired <==> who in initial) && (who in s.exempt <==> who in initial)
            && (who in s.locks <==> who in initial) && Locked(s.currency, who) == 0
            && (who in initial ==> s.locks[who] == LockInfo(0, 0, SatAdd(0, cfg.lockDuration), Active)))
      && (NoDuplicates(initial) ==> s.desired == initial) && s.session == s.desired && s.pending == []
  {
    DistinctMembers(initial);
  }

  lemma GenesisSound(cfg: Config, initial: seq<Account>)
    requires |Distinct(initial)| <= cfg.maxValidators
    ensures Sound(cfg, Genesis(cfg, initial))
  {
    DistinctSound(initial);
  }

  // ---- Blocks and calls -----------------------------------------------------------------------

  lemma BeginSound(cfg: Config, s: State)
    requires Sound(cfg, s)
    ensures Sound(cfg, Begin(cfg, s, s.now + 1))
  {
    var t := Begin(cfg, s, s.now + 1);
    assert forall who | who in t.locks :: who in s.locks && t.locks[who].status == s.locks[who].status;
    forall who ensures CountsStreak(cfg, t, who) {
      assert CountsStreak(cfg, s, who);
    }
  }

  lemma JoinSound(cfg: Config, s: State, who: Account, candidate: Candidate)
    requires Sound(cfg, s)
    ensures Sound(cfg, Join(cfg, s, who, candidate))
  {
    if LockError(cfg, s, who, candidate).None? {
      var t := Join(cfg, s, who, candidate);
      forall w ensures CountsStreak(cfg, t, w) {
        assert CountsStreak(cfg, s, w);
      }
      assert t.pending == s.pending + [who];
    }
  }

  lemma {:induction false} RemoveMembers(queue: seq<Account>, who: Account)
    requires NoDuplicates(queue)
    ensures NoDuplicates(Remove(queue, who)) && |Remove(queue, who)| <= |queue|
    ensures forall w :: w in Remove(queue, who) <==> w in queue && w != who
  {
    if queue != [] {
      var rest := queue[1..];
      RemoveMembers(rest, who);
      assert queue == [queue[0]] + rest;
      assert queue[0] !in rest;
    }
  }

  lemma ExitPlaced(cfg: Config, locks: map<Account, LockInfo>, pending: seq<Account>, desired: seq<Account>, who: Account)
    requires Placed(cfg, locks, pending, desired) && IsActive(locks, who)
    ensures Placed(cfg, locks[who := locks[who].(status := ExitRequested)], Remove(pending, who), desired)
  {
    RemoveMembers(pending, who);
    hide NoDuplicates, Remove;
  }

  lemma ExitSound(cfg: Config, s: State, who: Account)
    requires Sound(cfg, s)
    ensures Sound(cfg, Exit(s, who))
  {
    var t := Exit(s, who);
    hide Placed, Streak;
    if ExitError(s, who).None? {
      ExitPlaced(cfg, s.locks, s.pending, s.desired, who);
      forall w ensures CountsStreak(cfg, t, w) {
        assert CountsStreak(cfg, s, w);
      }
    }
  }

  lemma ReportSound(cfg: Config, s: State, t: State)
    requires Sound(cfg, s)
    requires t == s.(exempt := t.exempt, offlineNow := t.offlineNow, equivocationNow := t.equivocationNow)
    ensures Sound(cfg, t)
  {
    forall w ensures CountsStreak(cfg, t, w) {
      assert CountsStreak(cfg, s, w);
    }
  }

  // ---- The session boundary -------------------------------------------------------------------

  lemma {:induction false} StillActiveMembers(locks: map<Account, LockInfo>, accounts: seq<Account>)
    requires NoDuplicates(accounts)
    ensures NoDuplicates(StillActive(locks, accounts)) && |StillActive(locks, accounts)| <= |accounts|
    ensures forall who :: who in StillActive(locks, accounts) <==> who in accounts && IsActive(locks, who)
  {
    if accounts != [] {
      var front, last := accounts[..|accounts| - 1], accounts[|accounts| - 1];
      StillActiveMembers(locks, front);
      assert accounts == front + [last] && last !in front;
    }
  }

  /** The candidates that are promoted: still Active and with session keys. */
  function Promoted(locks: map<Account, LockInfo>, candidates: seq<Account>, keyed: set<Account>): seq<Account> {
    if candidates == [] then []
    else
      var front := Promoted(locks, candidates[..|candidates| - 1], keyed);
      var last := candidates[|candidates| - 1];
      if IsActive(locks, last) && last in keyed then front + [last] else front
  }

  /** The candidates that are dropped for want of keys. */
  function Keyless(locks: map<Account, LockInfo>, candidates: seq<Account>, keyed: set<Account>): set<Account> {
    set who | who in candidates && IsActive(locks, who) && who !in keyed
  }

  function DroppedLocks(locks: map<Account, LockInfo>, dropped: set<Account>): map<Account, LockInfo> {
    map who | who in locks :: if who in dropped then locks[who].(status := ExitRequested) else locks[who]
  }

  function DropAll(s: State, dropped: set<Account>): State {
    s.(locks := DroppedLocks(s.locks, dropped), offlineCount := s.offlineCount - dropped,
       offlineNow := s.offlineNow - dropped)
  }

  lemma {:induction false} PromotedMembers(locks: map<Account, LockInfo>, candidates: seq<Account>, keyed: set<Account>)
    requires NoDuplicates(candidates)
    ensures NoDuplicates(Promoted(locks, candidates, keyed)) && |Promoted(locks, candidates, keyed)| <= |candidates|
    ensures forall who :: who in Promoted(locks, candidates, keyed) <==>
      who in candidates && IsActive(locks, who) && who in keyed
  {
    if candidates != [] {
      var front, last := candidates[..|candidates| - 1], candidates[|candidates| - 1];
      PromotedMembers(locks, front, keyed);
      assert candidates == front + [last] && last !in front;
    }
  }

  lemma DropMore(s: State, dropped: set<Account>, who: Account)
    requires who in s.locks && who !in dropped
    ensures Drop(DropAll(s, dropped), who) == DropAll(s, dropped + {who})
  {
    assert DroppedLocks(s.locks, dropped + {who})
        == DroppedLocks(s.locks, dropped)[who := s.locks[who].(status := ExitRequested)];
    assert s.offlineCount - (dropped + {who}) == s.offlineCount - dropped - {who};
  }

  lemma DropNone(s: State)
    ensures DropAll(s, {}) == s
  {
    assert DroppedLocks(s.locks, {}) == s.locks;
    assert s.offlineCount - {} == s.offlineCount;
  }

  /** With room for everybody, no push fails and nobody is dropped for a full set: the promoted
      candidates follow the seats that are kept, and only those without keys are dropped. */
  lemma {:induction false} AdmitExactly(cfg: Config, seats: seq<Account>, s: State, candidates: seq<Account>,
                                        keyed: set<Account>)
    requires NoDuplicates(candidates) && |seats| + |candidates| <= cfg.maxValidators
    requires forall who | who in candidates :: who !in seats
    ensures Admit(cfg, Seating(seats, s), candidates, keyed)
         == Seating(seats + Promoted(s.locks, candidates, keyed), DropAll(s, Keyless(s.locks, candidates, keyed)))
    decreases |candidates|
  {
    if candidates == [] {
      assert Keyless(s.locks, candidates, keyed) == {};
      DropNone(s);
      assert seats + [] == seats;
    } else {
      var front, last := candidates[..|candidates| - 1], candidates[|candidates| - 1];
      assert candidates == front + [last] && last !in front;
      AdmitExactly(cfg, seats, s, front, keyed);
      PromotedMembers(s.locks, front, keyed);
      AdmitLast(cfg, seats, s, front, last, keyed);
    }
  }

  lemma AdmitLast(cfg: Config, seats: seq<Account>, s: State, front: seq<Account>, last: Account, keyed: set<Account>)
    requires NoDuplicates(front) && last !in front && last !in seats && |seats| + |front| < cfg.maxValidators
    ensures
      var before := Seating(seats + Promoted(s.locks, front, keyed), DropAll(s, Keyless(s.locks, front, keyed)));
      AdmitOne(cfg, before, last, keyed)
      == Seating(seats + Promoted(s.locks, front + [last], keyed), DropAll(s, Keyless(s.locks, front + [last], keyed)))
  {
    PromotedMembers(s.locks, front, keyed);
    assert (front + [last])[..|front|] == front;
    var gone := Keyless(s.locks, front, keyed);
    var promoted := Promoted(s.locks, front, keyed);
    assert IsActive(DropAll(s, gone).locks, last) <==> IsActive(s.locks, last);
    if IsActive(s.locks, last) && last !in keyed {
      assert Keyless(s.locks, front + [last], keyed) == gone + {last};
      DropMore(s, gone, last);
    } else {
      assert Keyless(s.locks, front + [last], keyed) == gone;
      assert IsActive(s.locks, last) ==> seats + promoted + [last] == seats + (promoted + [last]);
    }
  }

  /** The state the seats are filled in: equivocators and absentees kicked, counters updated. */
  ghost function Judged(cfg: Config, s: State): State {
    AfterOffline(cfg, AfterEquivocations(cfg, s))
  }

  /** The boundary in closed form. */
  lemma BoundaryIs(cfg: Config, s: State, keyed: set<Account>)
    requires Placed(cfg, s.locks, s.pending, s.desired)
    ensures
      var judged := Judged(cfg, s);
      var next := StillActive(judged.locks, s.desired) + Promoted(judged.locks, s.pending, keyed);
      NewSession(cfg, s, keyed)
      == DropAll(judged, Keyless(judged.locks, s.pending, keyed))
           .(pending := [], desired := next, session := Handed(s.session, s.desired, next))
  {
    var judged := Judged(cfg, s);
    StillActiveMembers(judged.locks, s.desired);
    AdmitExactly(cfg, StillActive(judged.locks, s.desired), judged.(pending := []), s.pending, keyed);
  }

  ghost predicate OutByAbsence(cfg: Config, s: State, who: Account) {
    who in s.desired && who in s.offlineNow && OfflineCount(s, who) + 1 >= cfg.offlineThreshold
  }

  /** Who is kicked: the equivocators, and the seated whose streak is full. */
  lemma JudgedLocks(cfg: Config, s: State, who: Account)
    requires Counters(cfg, s)
    ensures
      var judged := Judged(cfg, s);
      && (who in judged.locks <==> who in s.locks)
      && (who in s.locks ==>
            judged.locks[who] == if IsActive(s.locks, who) && (who in s.equivocationNow || OutByAbsence(cfg, s, who))
                                 then s.locks[who].(status := Kicked) else s.locks[who])
  {
    assert CountsStreak(cfg, s, who);
    var s1 := AfterEquivocations(cfg, s);
    assert who in Members(s.desired) <==> who in s.desired;
    if IsActive(s.locks, who) && who !in s.equivocationNow {
      assert OfflineCount(s1, who) == OfflineCount(s, who);
    }
  }

  /** The counters after the verdicts. */
  lemma JudgedCount(cfg: Config, s: State, who: Account)
    requires Counters(cfg, s)
    ensures
      var judged := Judged(cfg, s);
      && judged.history == s.history + [judged.history[|s.history|]]
      && (who in judged.history[|s.history|] <==>
            who in s.desired && IsActive(s.locks, who) && who !in s.equivocationNow && who in s.offlineNow)
      && OfflineCount(judged, who)
         == if who in judged.history[|s.history|] && !OutByAbsence(cfg, s, who) then OfflineCount(s, who) + 1 else 0
  {
    assert CountsStreak(cfg, s, who);
    var s1 := AfterEquivocations(cfg, s);
    assert who in Members(s.desired) <==> who in s.desired;
    assert who in s.desired || OfflineCount(s, who) == 0;
    if IsActive(s.locks, who) && who !in s.equivocationNow {
      assert OfflineCount(s1, who) == OfflineCount(s, who);
    }
  }

  lemma JoinDistinct(first: seq<Account>, second: seq<Account>)
    requires NoDuplicates(first) && NoDuplicates(second)
    requires forall who | who in first :: who !in second
    ensures NoDuplicates(first + second)
  {
    forall i, j | 0 <= i < j < |first + second| ensures (first + second)[i] != (first + second)[j] {
      if i < |first| <= j {
        assert first[i] in first && second[j - |first|] in second;
      }
    }
  }

  /** Right after a boundary the seated accounts are exactly the Active ones. */
  lemma SeatedAreActive(cfg: Config, s: State, keyed: set<Account>)
    requires Sound(cfg, s)
    ensures
      var t := NewSession(cfg, s, keyed);
      t.pending == [] && NoDuplicates(t.desired) && forall who :: who in t.desired <==> IsActive(t.locks, who)
  {
    BoundaryIs(cfg, s, keyed);
    var judged := Judged(cfg, s);
    StillActiveMembers(judged.locks, s.desired);
    PromotedMembers(judged.locks, s.pending, keyed);
    var t := NewSession(cfg, s, keyed);
    JoinDistinct(StillActive(judged.locks, s.desired), Promoted(judged.locks, s.pending, keyed));
    hide NewSession, Judged, StillActive, Promoted, NoDuplicates;
    forall who ensures who in t.desired <==> IsActive(t.locks, who) {
      JudgedLocks(cfg, s, who);
    }
  }

  lemma StreakStep(history: seq<set<Account>>, last: set<Account>, who: Account)
    ensures Streak(history + [last], who) == if who in last then Streak(history, who) + 1 else 0
  {
    assert (history + [last])[..|history|] == history;
  }

  lemma BoundaryCount(cfg: Config, s: State, keyed: set<Account>, who: Account)
    requires Sound(cfg, s)
    ensures CountsStreak(cfg, NewSession(cfg, s, keyed), who)
  {
    assert CountsStreak(cfg, s, who);
    BoundaryIs(cfg, s, keyed);
    JudgedCount(cfg, s, who);
    JudgedLocks(cfg, s, who);
    var judged := Judged(cfg, s);
    StreakStep(s.history, judged.history[|s.history|], who);
    StillActiveMembers(judged.locks, s.desired);
    PromotedMembers(judged.locks, s.pending, keyed);
  }

  lemma BoundarySound(cfg: Config, s: State, keyed: set<Account>)
    requires Sound(cfg, s)
    ensures Sound(cfg, NewSession(cfg, s, keyed))
  {
    var t := NewSession(cfg, s, keyed);
    BoundaryIs(cfg, s, keyed);
    SeatedAreActive(cfg, s, keyed);
    forall who ensures CountsStreak(cfg, t, who) {
      BoundaryCount(cfg, s, keyed, who);
    }
    var judged := Judged(cfg, s);
    StillActiveMembers(judged.locks, s.desired);
    PromotedMembers(judged.locks, s.pending, keyed);
  }

  // ---- Runs -----------------------------------------------------------------------------------

  /** Filling the seats touches statuses and offline marks only, whatever the state. */
  lemma {:induction false} AdmitKeeps(cfg: Config, seating: Seating, candidates: seq<Account>, keyed: set<Account>)
    ensures
      var s, t := seating.state, Admit(cfg, seating, candidates, keyed).state;
      && t == s.(locks := t.locks, offlineCount := t.offlineCount, offlineNow := t.offlineNow)
      && t.locks.Keys == s.locks.Keys
      && (forall who {:trigger t.locks[who]} | who in s.locks ::
            t.locks[who] == s.locks[who] || t.locks[who] == s.locks[who].(status := ExitRequested))
    decreases |candidates|
  {
    if candidates != [] {
      AdmitKeeps(cfg, seating, candidates[..|candidates| - 1], keyed);
    }
  }

  /** A boundary leaves time, currency and exemptions alone, and of a lock it changes the status only. */
  lemma BoundaryKeeps(cfg: Config, s: State, keyed: set<Account>)
    ensures
      var t := NewSession(cfg, s, keyed);
      && t.now == s.now && t.currency == s.currency && t.exempt == s.exempt
      && t.locks.Keys == s.locks.Keys
      && (forall who {:trigger t.locks[who]} | who in s.locks ::
            t.locks[who] == s.locks[who].(status := t.locks[who].status))
  {
    var judged := Judged(cfg, s);
    AdmitKeeps(cfg, Seating(StillActive(judged.locks, judged.desired), judged.(pending := [])), judged.pending, keyed);
  }

  lemma NowGrows(cfg: Config, s: State, step: Step)
    ensures s.now <= Apply(cfg, s, step).now <= s.now + 1
  {
    if step.Boundary? {
      BoundaryKeeps(cfg, s, step.keyed);
    }
  }

  lemma {:induction false} RunGrows(cfg: Config, s: State, steps: seq<Step>)
    ensures s.now <= Run(cfg, s, steps).now
    decreases |steps|
  {
    if steps != [] {
      NowGrows(cfg, s, steps[0]);
      RunGrows(cfg, Apply(cfg, s, steps[0]), steps[1..]);
    }
  }

  lemma ApplySound(cfg: Config, s: State, step: Step)
    requires Sound(cfg, s)
    ensures Sound(cfg, Apply(cfg, s, step))
  {
    hide Sound, Join, Exit, NewSession;
    match step {
      case BeginBlock => BeginSound(cfg, s);
      case LockCall(who, candidate) => JoinSound(cfg, s, who, candidate);
      case ExitCall(who) => ExitSound(cfg, s, who);
      case ExemptCall(who, exempt) => ReportSound(cfg, s, Apply(cfg, s, step));
      case OfflineReport(who) => ReportSound(cfg, s, Apply(cfg, s, step));
      case EquivocationReport(who) => ReportSound(cfg, s, Apply(cfg, s, step));
      case Boundary(keyed) => BoundarySound(cfg, s, keyed);
    }
  }

  lemma {:induction false} RunSound(cfg: Config, s: State, steps: seq<Step>)
    requires Sound(cfg, s)
    ensures Sound(cfg, Run(cfg, s, steps))
    decreases |steps|
  {
    if steps != [] {
      ApplySound(cfg, s, steps[0]);
      RunSound(cfg, Apply(cfg, s, steps[0]), steps[1..]);
    }
  }

  /** Every run from genesis. */
  lemma EveryRun(cfg: Config, initial: seq<Account>, steps: seq<Step>)
    requires |Distinct(initial)| <= cfg.maxValidators
    ensures
      var s := Run(cfg, Genesis(cfg, initial), steps);
      && NoDuplicates(s.pending) && NoDuplicates(s.desired) && |s.pending| + |s.desired| <= cfg.maxValidators
      && (forall who | who in s.pending :: who !in s.desired)
      && (forall who | who in s.locks ::
            && (s.locks[who].status == Active ==> who in s.pending || who in s.desired)
            && (s.locks[who].status == Kicked ==> who !in s.pending && who !in s.desired))
      && (forall who | who in s.desired :: OfflineCount(s, who) == Streak(s.history, who))
      && (s.desired != [] ==> s.session == s.desired)
  {
    GenesisSound(cfg, initial);
    RunSound(cfg, Genesis(cfg, initial), steps);
    var s := Run(cfg, Genesis(cfg, initial), steps);
    forall who | who in s.desired ensures OfflineCount(s, who) == Streak(s.history, who) {
      assert CountsStreak(cfg, s, who);
    }
  }
}
