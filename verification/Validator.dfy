/** The validator life cycle of pallets/validator/src/lib.rs: locks, seats, kicks and sessions. */
module Validator {
  import opened Basics

  type Account = nat

  function SatAdd(a: nat, b: nat): nat {
    if a + b <= U32_MAX then a + b else U32_MAX
  }

  datatype Config = Config(lockAmount: nat, lockDuration: nat, maxValidators: nat, renewInterval: nat,
                           offlineThreshold: U32, rejoinCooldownPeriod: nat)

  datatype Status = Active | ExitRequested | Kicked

  datatype LockInfo = LockInfo(amount: nat, lockBlock: nat, expiryBlock: nat, status: Status)

  datatype Error =
    | AlreadyValidator | NotValidator | InvalidStatus | InCooldown | InsufficientBalance | TooManyValidators
    | SessionKeysNotRegistered | IdentityNotQualified

  /** The pallet's storage with the block number, the currency locks under its identifier, the set
      last handed to the session layer, and, for each boundary so far, the seated Active accounts
      that were reported offline. */
  datatype State = State(now: nat, locks: map<Account, LockInfo>, pending: seq<Account>, desired: seq<Account>,
                         exempt: set<Account>, cooldown: map<Account, nat>, offlineCount: map<Account, nat>,
                         offlineNow: set<Account>, equivocationNow: set<Account>, currency: map<Account, nat>,
                         session: seq<Account>, history: seq<set<Account>>)

  predicate IsActive(locks: map<Account, LockInfo>, who: Account) {
    who in locks && locks[who].status == Active
  }

  /** `set_lock` treats zero as removal. */
  function SetLock(currency: map<Account, nat>, who: Account, amount: nat): map<Account, nat> {
    if amount == 0 then currency - {who} else currency[who := amount]
  }

  function Locked(currency: map<Account, nat>, who: Account): nat {
    if who in currency then currency[who] else 0
  }

  function OfflineCount(s: State, who: Account): nat {
    if who in s.offlineCount then s.offlineCount[who] else 0
  }

  /** A push on a bounded vector, which fails on a full one. */
  function TryPush(queue: seq<Account>, bound: nat, who: Account): seq<Account> {
    if |queue| < bound then queue + [who] else queue
  }

  predicate NoDuplicates(accounts: seq<Account>) {
    forall i, j | 0 <= i < j < |accounts| :: accounts[i] != accounts[j]
  }

  // ---- Genesis --------------------------------------------------------------------------------

  /** The first occurrences. */
  function Distinct(accounts: seq<Account>): seq<Account> {
    if accounts == [] then []
    else
      var last := accounts[|accounts| - 1];
      var front := Distinct(accounts[..|accounts| - 1]);
      if last in front then front else front + [last]
  }

  function Genesis(cfg: Config, initial: seq<Account>): State {
    var seats := Distinct(initial);
    State(0, map who | who in seats :: LockInfo(0, 0, SatAdd(0, cfg.lockDuration), Active), [], seats,
          set who | who in seats, map[], map[], {}, {}, map[], seats, [])
  }

  // ---- A new block ----------------------------------------------------------------------------

  predicate Renews(cfg: Config, info: LockInfo, now: nat) {
    && cfg.renewInterval != 0 && info.status == Active
    && SaturatingSub(cfg.lockDuration, SaturatingSub(info.expiryBlock, now)) >= cfg.renewInterval
  }

  function Renewed(cfg: Config, info: LockInfo, now: nat): LockInfo {
    if Renews(cfg, info, now) then info.(expiryBlock := SatAdd(now, cfg.lockDuration)) else info
  }

  function Unexpired(cfg: Config, locks: map<Account, LockInfo>, now: nat): map<Account, LockInfo> {
    map who | who in locks && now < locks[who].expiryBlock :: Renewed(cfg, locks[who], now)
  }

  function Expired(locks: map<Account, LockInfo>, now: nat): set<Account> {
    set who | who in locks && locks[who].expiryBlock <= now
  }

  /** Block `now` begins: expired locks go, Active ones are renewed once an interval has passed. */
  function Begin(cfg: Config, s: State, now: nat): State {
    s.(now := now, locks := Unexpired(cfg, s.locks, now), currency := s.currency - Expired(s.locks, now))
  }

  // ---- Calls ----------------------------------------------------------------------------------

  function RequiredLock(cfg: Config, s: State, who: Account): nat {
    if who in s.exempt then 0 else cfg.lockAmount
  }

  function JoinAmount(cfg: Config, s: State, who: Account): nat {
    if who in s.locks then Max(s.locks[who].amount, RequiredLock(cfg, s, who)) else RequiredLock(cfg, s, who)
  }

  function JoinExpiry(cfg: Config, s: State, who: Account): nat {
    var freshExpiry := SatAdd(s.now, cfg.lockDuration);
    if who in s.locks then Max(s.locks[who].expiryBlock, freshExpiry) else freshExpiry
  }

  /** What the account brings to `lock` from outside the pallet. */
  datatype Candidate = Candidate(hasKeys: bool, identity: bool, free: nat)

  function LockError(cfg: Config, s: State, who: Account, candidate: Candidate): Option<Error> {
    if who in s.desired || who in s.pending then Some(AlreadyValidator)
    else if |s.desired| + |s.pending| >= cfg.maxValidators then Some(TooManyValidators)
    else if !candidate.hasKeys then Some(SessionKeysNotRegistered)
    else if !candidate.identity then Some(IdentityNotQualified)
    else if who in s.cooldown && s.cooldown[who] >= s.now then Some(InCooldown)
    else if candidate.free < JoinAmount(cfg, s, who) then Some(InsufficientBalance)
    else None
  }

  /** `lock`; a call that fails leaves no trace. */
  function Join(cfg: Config, s: State, who: Account, candidate: Candidate): State {
    if LockError(cfg, s, who, candidate).Some? then s
    else
      var amount := JoinAmount(cfg, s, who);
      s.(cooldown := s.cooldown - {who},
         pending := TryPush(s.pending, cfg.maxValidators, who),
         currency := SetLock(s.currency, who, amount),
         locks := s.locks[who := LockInfo(amount, s.now, JoinExpiry(cfg, s, who), Active)])
  }

  function ExitError(s: State, who: Account): Option<Error> {
    if who !in s.locks then Some(NotValidator)
    else if s.locks[who].status != Active then Some(InvalidStatus)
    else None
  }

  function Remove(queue: seq<Account>, who: Account): seq<Account> {
    if queue == [] then [] else if queue[0] == who then queue[1..] else [queue[0]] + Remove(queue[1..], who)
  }

  function Exit(s: State, who: Account): State {
    if ExitError(s, who).Some? then s
    else s.(locks := s.locks[who := s.locks[who].(status := ExitRequested)], pending := Remove(s.pending, who))
  }

  function SetExempt(s: State, who: Account, exempt: bool): State {
    s.(exempt := if exempt then s.exempt + {who} else s.exempt - {who})
  }

  function NoteOffline(s: State, who: Account): State {
    if who in s.locks then s.(offlineNow := s.offlineNow + {who}) else s
  }

  function NoteEquivocation(s: State, who: Account): State {
    if IsActive(s.locks, who) then s.(equivocationNow := s.equivocationNow + {who}) else s
  }

  // ---- The session boundary -------------------------------------------------------------------

  function KickedLocks(locks: map<Account, LockInfo>, kicked: set<Account>): map<Account, LockInfo> {
    map who | who in locks :: if who in kicked then locks[who].(status := Kicked) else locks[who]
  }

  function Deadlines(kicked: set<Account>, deadline: nat): map<Account, nat> {
    map who | who in kicked :: deadline
  }

  /** The accounts are kicked: all of them are Active. */
  function Kick(cfg: Config, s: State, kicked: set<Account>): State {
    s.(locks := KickedLocks(s.locks, kicked),
       cooldown := s.cooldown + Deadlines(kicked, SatAdd(s.now, cfg.rejoinCooldownPeriod)),
       offlineCount := s.offlineCount - kicked,
       offlineNow := s.offlineNow - kicked)
  }

  /** `kick_validator` */
  function KickOne(cfg: Config, s: State, who: Account): State {
    if IsActive(s.locks, who) then Kick(cfg, s, {who}) else s
  }

  function Equivocators(s: State): set<Account> {
    ActiveAmong(s.locks, s.equivocationNow)
  }

  function AfterEquivocations(cfg: Config, s: State): State {
    Kick(cfg, s, Equivocators(s)).(equivocationNow := {})
  }

  predicate IsFlagged(s: State, who: Account) {
    IsActive(s.locks, who) && who in s.offlineNow
  }

  /** One session too many. */
  predicate IsAbsent(cfg: Config, s: State, who: Account) {
    IsFlagged(s, who) && SatAdd(OfflineCount(s, who), 1) >= cfg.offlineThreshold
  }

  function Flagged(s: State, done: set<Account>): set<Account> {
    set who | who in done && IsFlagged(s, who)
  }

  function Absent(cfg: Config, s: State, done: set<Account>): set<Account> {
    set who | who in done && IsAbsent(cfg, s, who)
  }

  function Counted(cfg: Config, s: State, done: set<Account>): map<Account, nat> {
    map who | who in s.offlineCount.Keys + done
              && (who in done ==> IsFlagged(s, who) && !IsAbsent(cfg, s, who)) ::
      if who in done then SatAdd(OfflineCount(s, who), 1) else OfflineCount(s, who)
  }

  function ActiveAmong(locks: map<Account, LockInfo>, done: set<Account>): set<Account> {
    set who | who in done && IsActive(locks, who)
  }

  /** The counters once the accounts `done` have been looked at. */
  function CountedOffline(cfg: Config, s: State, done: set<Account>): State {
    Kick(cfg, s, Absent(cfg, s, done))
      .(offlineCount := Counted(cfg, s, done), offlineNow := s.offlineNow - ActiveAmong(s.locks, done))
  }

  /** One account of the active set. */
  function CountOne(cfg: Config, s: State, who: Account): State {
    if !IsActive(s.locks, who) then s.(offlineCount := s.offlineCount - {who})
    else if who !in s.offlineNow then s.(offlineCount := s.offlineCount - {who})
    else
      var taken := s.(offlineNow := s.offlineNow - {who});
      var count := SatAdd(OfflineCount(s, who), 1);
      if count < cfg.offlineThreshold then taken.(offlineCount := s.offlineCount[who := count])
      else KickOne(cfg, taken, who)
  }

  function Members(accounts: seq<Account>): set<Account> {
    set who | who in accounts
  }

  function AfterOffline(cfg: Config, s: State): State {
    CountedOffline(cfg, s, Members(s.desired))
      .(offlineNow := {}, history := s.history + [Flagged(s, Members(s.desired))])
  }

  function StillActive(locks: map<Account, LockInfo>, accounts: seq<Account>): seq<Account> {
    if accounts == [] then []
    else
      var front := StillActive(locks, accounts[..|accounts| - 1]);
      var last := accounts[|accounts| - 1];
      if IsActive(locks, last) then front + [last] else front
  }

  /** A candidate is dropped before promotion. */
  function Drop(s: State, who: Account): State {
    s.(locks := if who in s.locks then s.locks[who := s.locks[who].(status := ExitRequested)] else s.locks,
       offlineCount := s.offlineCount - {who},
       offlineNow := s.offlineNow - {who})
  }

  datatype Seating = Seating(next: seq<Account>, state: State)

  function AdmitOne(cfg: Config, seating: Seating, who: Account, keyed: set<Account>): Seating {
    if !IsActive(seating.state.locks, who) || who in seating.next then seating
    else if who !in keyed || |seating.next| >= cfg.maxValidators then seating.(state := Drop(seating.state, who))
    else seating.(next := TryPush(seating.next, cfg.maxValidators, who))
  }

  function Admit(cfg: Config, seating: Seating, candidates: seq<Account>, keyed: set<Account>): Seating
    decreases |candidates|
  {
    if candidates == [] then seating
    else
      var front := Admit(cfg, seating, candidates[..|candidates| - 1], keyed);
      AdmitOne(cfg, front, candidates[|candidates| - 1], keyed)
  }

  /** The seats are filled anew, the queue is drained, and the session layer gets the new set if it
      differs and is not the first empty one. */
  function Reseat(cfg: Config, s: State, keyed: set<Account>): State {
    var seating := Admit(cfg, Seating(StillActive(s.locks, s.desired), s.(pending := [])), s.pending, keyed);
    seating.state.(desired := seating.next, session := Handed(s.session, s.desired, seating.next))
  }

  function Handed(session: seq<Account>, previous: seq<Account>, next: seq<Account>): seq<Account> {
    if next == previous || (next == [] && previous != []) then session else next
  }

  /** `new_session` */
  function NewSession(cfg: Config, s: State, keyed: set<Account>): State {
    Reseat(cfg, AfterOffline(cfg, AfterEquivocations(cfg, s)), keyed)
  }
}
