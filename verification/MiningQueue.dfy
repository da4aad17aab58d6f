/** The mining tasks of consensus/sc-consensus-pow/src/worker.rs, shared by concurrent submitters. */
module MiningQueue {
  import opened Basics

  type Hash = nat
  type Seal = nat

  datatype Metadata = Metadata(bestHash: Hash, preHash: Hash, preRuntime: Option<seq<nat>>, difficulty: nat)

  /** A task with its proposal, named by the call that brought it. */
  datatype Build = Build(metadata: Metadata, proposal: nat)

  /** What the proof-of-work algorithm says of a seal. */
  datatype Verdict = Judged(valid: bool) | Failed

  const MAX_LIVE_TASKS := 256

  /** A build joins the builds on its own head and replaces those on any other; the newest stay. */
  function Pushed(queue: seq<Build>, build: Build): seq<Build> {
    var kept := if queue != [] && queue[|queue| - 1].metadata.bestHash == build.metadata.bestHash then queue else [];
    Newest(kept + [build])
  }

  function Newest(queue: seq<Build>): seq<Build> {
    if |queue| > MAX_LIVE_TASKS then queue[|queue| - MAX_LIVE_TASKS..] else queue
  }

  /** The first build for a pre-hash, or the length of the queue. */
  function Position(queue: seq<Build>, preHash: Hash): (i: nat)
    ensures i <= |queue|
    ensures i < |queue| ==> queue[i].metadata.preHash == preHash
    ensures forall j | 0 <= j < i :: queue[j].metadata.preHash != preHash
  {
    if queue == [] || queue[0].metadata.preHash == preHash then 0 else 1 + Position(queue[1..], preHash)
  }

  function Without(queue: seq<Build>, i: nat): seq<Build>
    requires i < |queue|
  {
    queue[..i] + queue[i + 1..]
  }

  lemma {:induction false} PositionUnique(queue: seq<Build>, preHash: Hash, i: nat)
    requires i <= |queue|
    requires i < |queue| ==> queue[i].metadata.preHash == preHash
    requires forall j | 0 <= j < i :: queue[j].metadata.preHash != preHash
    ensures Position(queue, preHash) == i
  {
    var p := Position(queue, preHash);
    assert p < |queue| ==> queue[p].metadata.preHash == preHash;
  }

  datatype Outcome = Outcome(queue: seq<Build>, increments: int, success: bool)

  /** What an undisturbed submission does. */
  function Alone(queue: seq<Build>, preHash: Hash, seal: Seal, verify: (Metadata, Seal) -> Verdict,
                 importSucceeds: Build -> bool): Outcome
  {
    var i := Position(queue, preHash);
    if i == |queue| || verify(queue[i].metadata, seal) != Judged(true) then Outcome(queue, 0, false)
    else if importSucceeds(queue[i]) then Outcome([], 2, true)
    else Outcome(Without(queue, i), 1, false)
  }

  ghost predicate FirstFor(queue: seq<Build>, preHash: Hash, i: nat) {
    i < |queue| && queue[i].metadata.preHash == preHash && forall j | 0 <= j < i :: queue[j].metadata.preHash != preHash
  }

  /** An undisturbed submission succeeds precisely if the first build for its pre-hash is there, its
      seal is valid for that build, and the import takes it. */
  lemma AloneSucceeds(queue: seq<Build>, preHash: Hash, seal: Seal, verify: (Metadata, Seal) -> Verdict,
                      importSucceeds: Build -> bool)
    ensures Alone(queue, preHash, seal, verify, importSucceeds).success <==>
      exists i: nat :: FirstFor(queue, preHash, i) && verify(queue[i].metadata, seal) == Judged(true) && importSucceeds(queue[i])
  {
    var p := Position(queue, preHash);
    assert p < |queue| ==> FirstFor(queue, preHash, p);
    forall i: nat | FirstFor(queue, preHash, i) ensures i == p {
      PositionUnique(queue, preHash, i);
    }
  }

  /** The newest build is always there, last, whatever it was pushed on. */
  lemma NewestIsLast(queue: seq<Build>, build: Build)
    ensures
      var pushed := Pushed(queue, build);
      pushed != [] && pushed[|pushed| - 1] == build
  {
  }

  // ---- The handle -----------------------------------------------------------------------------

  /** Each lock-protected section is a method of its own; a submission is three of them, with the
      check of the seal and the block import in between. */
  class MiningHandle {
    var version: nat
    var builds: seq<Build>

    constructor ()
      ensures version == 0 && builds == []
    {
      version, builds := 0, [];
    }

    method IncrementVersion()
      modifies this`version
      ensures version == old(version) + 1
    {
      version := version + 1;
    }

    method OnMajorSyncing()
      modifies this
      ensures builds == [] && version == old(version) + 1
    {
      builds := [];
      IncrementVersion();
    }

    method OnBuild(value: Build)
      modifies this
      ensures builds == Pushed(old(builds), value) && version == old(version) + 1
    {
      if builds == [] || builds[|builds| - 1].metadata.bestHash != value.metadata.bestHash {
        builds := [];
      }
      builds := builds + [value];
      ghost var all, dropped := builds, 0;
      while |builds| > MAX_LIVE_TASKS
        invariant dropped <= |all| && builds == all[dropped..]
        invariant dropped == 0 || |builds| >= MAX_LIVE_TASKS
        invariant version == old(version)
      {
        builds, dropped := builds[1..], dropped + 1;
      }
      IncrementVersion();
    }

    method Latest() returns (metadata: Option<Metadata>)
      ensures metadata == if builds == [] then None else Some(builds[|builds| - 1].metadata)
    {
      metadata := None;
      if builds != [] {
        metadata := Some(builds[|builds| - 1].metadata);
      }
    }

    method FindPosition(preHash: Hash) returns (i: nat)
      ensures i == Position(builds, preHash)
    {
      i := 0;
      while i < |builds| && builds[i].metadata.preHash != preHash
        invariant i <= |builds|
        invariant forall j | 0 <= j < i :: builds[j].metadata.preHash != preHash
      {
        i := i + 1;
      }
      PositionUnique(builds, preHash, i);
    }

    method Lookup(preHash: Hash) returns (found: Option<Metadata>)
      ensures
        var i := Position(builds, preHash);
        found == if i < |builds| then Some(builds[i].metadata) else None
    {
      var i := FindPosition(preHash);
      found := None;
      if i < |builds| {
        found := Some(builds[i].metadata);
      }
    }

    method Take(preHash: Hash) returns (taken: Option<Build>)
      modifies this`builds
      ensures
        var i := Position(old(builds), preHash);
        if i < |old(builds)| then taken == Some(old(builds)[i]) && builds == Without(old(builds), i)
        else taken == None && builds == old(builds)
    {
      var i := FindPosition(preHash);
      taken := None;
      if i < |builds| {
        taken := Some(builds[i]);
        builds := builds[..i] + builds[i + 1..];
      }
    }

    /** `submit` with nobody else at work. */
    method Submit(preHash: Hash, seal: Seal, verify: (Metadata, Seal) -> Verdict, importSucceeds: Build -> bool)
      returns (success: bool)
      modifies this
      ensures
        Outcome(builds, version - old(version), success) == Alone(old(builds), preHash, seal, verify, importSucceeds)
    {
      var found := Lookup(preHash);
      if found.None? {
        return false;
      }
      var verdict := verify(found.value, seal);
      if verdict != Judged(true) {
        return false;
      }
      var build := Take(preHash);
      if build.None? {
        return false;
      }
      IncrementVersion();
      if importSucceeds(build.value) {
        builds := [];
        IncrementVersion();
        return true;
      }
      return false;
    }
  }

  // ---- Interleavings --------------------------------------------------------------------------

  /** How far a submission has come. `Took` and `Cleared` have written the queue and still owe
      the version its increment. */
  datatype Phase =
    | Called
    | Found(metadata: Metadata)
    | Verified(metadata: Metadata)
    | Took(metadata: Metadata, build: Build)
    | Importing(metadata: Metadata, build: Build)
    | Landed
    | Cleared
    | Returned(success: bool)

  datatype Submission = Submission(preHash: Hash, seal: Seal, phase: Phase)

  /** A call of `import_block`: who made it, the metadata its seal was checked against, and whether
      it succeeded. */
  datatype Import = Import(submitter: nat, build: Build, seal: Seal, checked: Metadata, success: bool)

  /** `owed` counts the finished writes of `on_build` and `on_major_syncing` that have not reached
      the version yet, `writes` all writes of the queue so far, `seen` all metadata brought. */
  datatype State = State(queue: seq<Build>, version: nat, owed: nat, writes: nat, arrived: nat, seen: set<Metadata>,
                         submissions: map<nat, Submission>, imports: seq<Import>)

  datatype Step =
    | Arrive(metadata: Metadata)
    | Sync
    | Bump
    | Call(id: nat, preHash: Hash, seal: Seal)
    | Advance(id: nat, success: bool)

  const START := State([], 0, 0, 0, 0, {}, map[], [])

  function Reach(s: State, id: nat, phase: Phase): State
    requires id in s.submissions
  {
    s.(submissions := Moved(s.submissions, id, phase))
  }

  function Moved(submissions: map<nat, Submission>, id: nat, phase: Phase): map<nat, Submission>
    requires id in submissions
  {
    submissions[id := submissions[id].(phase := phase)]
  }

  function Write(s: State, queue: seq<Build>): State {
    s.(queue := queue, writes := s.writes + 1)
  }

  /** The next section of one submission; `success` is the outcome of the import, if that is it. */
  function Section(s: State, verify: (Metadata, Seal) -> Verdict, id: nat, success: bool): State
    requires id in s.submissions
  {
    var sub := s.submissions[id];
    match sub.phase
    case Called =>
      var i := Position(s.queue, sub.preHash);
      Reach(s, id, if i < |s.queue| then Found(s.queue[i].metadata) else Returned(false))
    case Found(metadata) =>
      Reach(s, id, if verify(metadata, sub.seal) == Judged(true) then Verified(metadata) else Returned(false))
    case Verified(metadata) =>
      var i := Position(s.queue, sub.preHash);
      if i < |s.queue| then Reach(Write(s, Without(s.queue, i)), id, Took(metadata, s.queue[i]))
      else Reach(s, id, Returned(false))
    case Took(metadata, build) =>
      Reach(s.(version := s.version + 1), id, Importing(metadata, build))
    case Importing(metadata, build) =>
      Reach(s.(imports := s.imports + [Import(id, build, sub.seal, metadata, success)]), id,
            if success then Landed else Returned(false))
    case Landed =>
      Reach(Write(s, []), id, Cleared)
    case Cleared =>
      Reach(s.(version := s.version + 1), id, Returned(true))
    case Returned(_) =>
      s
  }

  function Remaining(phase: Phase): nat {
    match phase
    case Called => 7
    case Found(_) => 6
    case Verified(_) => 5
    case Took(_, _) => 4
    case Importing(_, _) => 3
    case Landed => 2
    case Cleared => 1
    case Returned(_) => 0
  }

  /** One submission to its end, with no other step in between. */
  function Completed(s: State, verify: (Metadata, Seal) -> Verdict, id: nat, success: bool): (t: State)
    requires id in s.submissions
    ensures id in t.submissions && t.submissions[id].phase.Returned?
    decreases Remaining(s.submissions[id].phase)
  {
    if s.submissions[id].phase.Returned? then s else Completed(Section(s, verify, id, success), verify, id, success)
  }

  ghost function Result(s: State, t: State, id: nat): Outcome
    requires id in t.submissions && t.submissions[id].phase.Returned?
  {
    Outcome(t.queue, t.version - s.version, t.submissions[id].phase.success)
  }

  lemma {:induction false} LandedCompletes(s: State, verify: (Metadata, Seal) -> Verdict, id: nat, success: bool)
    requires id in s.submissions && s.submissions[id].phase.Landed?
    ensures Result(s, Completed(s, verify, id, success), id) == Outcome([], 1, true)
  {
    var cleared := Section(s, verify, id, success);
    var returned := Section(cleared, verify, id, success);
    assert Completed(cleared, verify, id, success) == Completed(returned, verify, id, success) == returned;
  }

  lemma {:induction false} TookCompletes(s: State, verify: (Metadata, Seal) -> Verdict, id: nat, success: bool)
    requires id in s.submissions && s.submissions[id].phase.Took?
    ensures Result(s, Completed(s, verify, id, success), id)
         == if success then Outcome([], 2, true) else Outcome(s.queue, 1, false)
  {
    var importing := Section(s, verify, id, success);
    var imported := Section(importing, verify, id, success);
    assert Completed(s, verify, id, success) == Completed(importing, verify, id, success)
        == Completed(imported, verify, id, success);
    if success {
      LandedCompletes(imported, verify, id, success);
    }
  }

  /** With no other step in between, the sections make up the undisturbed submission. */
  lemma {:induction false} AloneIsCompleted(s: State, verify: (Metadata, Seal) -> Verdict, id: nat,
                                            importSucceeds: Build -> bool, success: bool)
    requires id in s.submissions && s.submissions[id].phase.Called?
    requires
      var i := Position(s.queue, s.submissions[id].preHash);
      i < |s.queue| ==> success == importSucceeds(s.queue[i])
    ensures
      var sub := s.submissions[id];
      Result(s, Completed(s, verify, id, success), id) == Alone(s.queue, sub.preHash, sub.seal, verify, importSucceeds)
  {
    var found := Section(s, verify, id, success);
    if found.submissions[id].phase.Found? {
      var verified := Section(found, verify, id, success);
      assert Completed(s, verify, id, success) == Completed(found, verify, id, success)
          == Completed(verified, verify, id, success);
      if verified.submissions[id].phase.Verified? {
        TookCompletes(Section(verified, verify, id, success), verify, id, success);
      }
    }
  }

  /** One atomic section of anybody. A step that is not possible changes nothing. */
  function Next(s: State, verify: (Metadata, Seal) -> Verdict, step: Step): State {
    match step
    case Arrive(metadata) =>
      Write(s, Pushed(s.queue, Build(metadata, s.arrived)))
        .(owed := s.owed + 1, arrived := s.arrived + 1, seen := s.seen + {metadata})
    case Sync => Write(s, []).(owed := s.owed + 1)
    case Bump => if s.owed == 0 then s else s.(version := s.version + 1, owed := s.owed - 1)
    case Call(id, preHash, seal) =>
      if id in s.submissions then s
      else s.(submissions := s.submissions[id := Submission(preHash, seal, Called)])
    case Advance(id, success) => if id in s.submissions then Section(s, verify, id, success) else s
  }

  function Run(s: State, verify: (Metadata, Seal) -> Verdict, steps: seq<Step>): State
    decreases |steps|
  {
    if steps == [] then s else Run(Next(s, verify, steps[0]), verify, steps[1..])
  }

  // ---- The queue ------------------------------------------------------------------------------

  /** One head, at most 256 builds, in the order they came. */
  ghost predicate WellFormed(queue: seq<Build>, arrived: nat) {
    |queue| <= MAX_LIVE_TASKS && InOrder(queue, arrived)
  }

  /** In the order they came and on one head, whatever their number. */
  ghost predicate InOrder(queue: seq<Build>, arrived: nat) {
    && (forall i | 0 <= i < |queue| :: queue[i].proposal < arrived)
    && (forall i, j | 0 <= i < j < |queue| :: queue[i].proposal < queue[j].proposal)
    && (forall i, j | 0 <= i < j < |queue| :: queue[i].metadata.bestHash == queue[j].metadata.bestHash)
  }

  lemma PushedWellFormed(queue: seq<Build>, arrived: nat, metadata: Metadata)
    requires WellFormed(queue, arrived)
    ensures WellFormed(Pushed(queue, Build(metadata, arrived)), arrived + 1)
    ensures forall b | b in Pushed(queue, Build(metadata, arrived)) :: b in queue || b == Build(metadata, arrived)
  {
    var build := Build(metadata, arrived);
    var kept := if queue != [] && queue[|queue| - 1].metadata.bestHash == build.metadata.bestHash then queue else [];
    OnOneHead(kept, arrived, build);
    NewestInOrder(kept + [build], arrived + 1);
    forall b | b in Pushed(queue, build) ensures b in queue || b == build {
      assert b in kept + [build];
    }
    hide InOrder, WellFormed, Newest;
  }

  lemma NewestInOrder(all: seq<Build>, arrived: nat)
    requires InOrder(all, arrived)
    ensures WellFormed(Newest(all), arrived)
    ensures forall b | b in Newest(all) :: b in all
  {
    var drop := if |all| > MAX_LIVE_TASKS then |all| - MAX_LIVE_TASKS else 0;
    var newest := Newest(all);
    assert forall i {:trigger newest[i]} | 0 <= i < |newest| :: newest[i] == all[drop + i];
    hide Newest;
  }

  lemma OnOneHead(kept: seq<Build>, arrived: nat, build: Build)
    requires WellFormed(kept, arrived) && build.proposal == arrived
    requires kept != [] ==> kept[|kept| - 1].metadata.bestHash == build.metadata.bestHash
    ensures InOrder(kept + [build], arrived + 1)
  {
    forall i | 0 <= i < |kept| ensures kept[i].metadata.bestHash == build.metadata.bestHash {
      assert i < |kept| - 1 ==> kept[i].metadata.bestHash == kept[|kept| - 1].metadata.bestHash;
    }
  }

  /** On the same head a build pushes out at most one other, the oldest, and only a full queue's. */
  lemma OldestLeavesFirst(queue: seq<Build>, arrived: nat, metadata: Metadata, b: Build)
    requires WellFormed(queue, arrived) && b in queue && b.metadata.bestHash == metadata.bestHash
    ensures b !in Pushed(queue, Build(metadata, arrived)) <==>
      |queue| == MAX_LIVE_TASKS && forall other | other in queue && other != b :: b.proposal < other.proposal
  {
    var build := Build(metadata, arrived);
    var k :| 0 <= k < |queue| && queue[k] == b;
    assert queue[|queue| - 1].metadata.bestHash == metadata.bestHash;
    var all := queue + [build];
    if |queue| == MAX_LIVE_TASKS {
      assert Pushed(queue, build) == all[1..];
      assert all[1..] == queue[1..] + [build];
      if k > 0 {
        assert queue[1..][k - 1] == b;
        assert queue[0].proposal < b.proposal && queue[0] in queue;
      } else {
        forall other | other in queue && other != b ensures b.proposal < other.proposal {
          var i :| 0 <= i < |queue| && queue[i] == other;
        }
      }
    } else {
      assert Pushed(queue, build) == all && all[k] == b;
    }
  }

  lemma WithoutWellFormed(queue: seq<Build>, arrived: nat, i: nat)
    requires WellFormed(queue, arrived) && i < |queue|
    ensures WellFormed(Without(queue, i), arrived)
  {
    var rest := Without(queue, i);
    assert forall j {:trigger rest[j]} | 0 <= j < |rest| :: rest[j] == queue[if j < i then j else j + 1];
    hide Without;
  }

  lemma WithoutMembers(queue: seq<Build>, arrived: nat, i: nat, b: Build)
    requires WellFormed(queue, arrived) && i < |queue| && b in Without(queue, i)
    ensures b in queue && b.proposal != queue[i].proposal
  {
    var rest := Without(queue, i);
    var j :| 0 <= j < |rest| && rest[j] == b;
    assert b == queue[if j < i then j else j + 1];
  }

  // ---- Who holds a build ----------------------------------------------------------------------

  ghost predicate Holds(phase: Phase) {
    phase.Took? || phase.Importing?
  }

  /** A build that has left the queue and is not handed to the import. */
  ghost predicate Apart(queue: seq<Build>, imports: seq<Import>, arrived: nat, proposal: nat) {
    && proposal < arrived
    && (forall b | b in queue :: b.proposal != proposal)
    && (forall i | i in imports :: i.build.proposal != proposal)
  }

  ghost predicate HeldApart(queue: seq<Build>, imports: seq<Import>, arrived: nat, submissions: map<nat, Submission>) {
    forall id {:trigger submissions[id]} | id in submissions && Holds(submissions[id].phase) ::
      Apart(queue, imports, arrived, submissions[id].phase.build.proposal)
  }

  ghost predicate HeldOnce(submissions: map<nat, Submission>) {
    forall id, other {:trigger submissions[id], submissions[other]} |
      && id in submissions && other in submissions && id != other
      && Holds(submissions[id].phase) && Holds(submissions[other].phase) ::
      submissions[id].phase.build.proposal != submissions[other].phase.build.proposal
  }

  ghost predicate ImportedOnce(queue: seq<Build>, imports: seq<Import>, arrived: nat) {
    && (forall i, b | i in imports && b in queue :: b.proposal != i.build.proposal)
    && (forall i | i in imports :: i.build.proposal < arrived)
    && (forall k, l | 0 <= k < l < |imports| :: imports[k].build.proposal != imports[l].build.proposal)
  }

  /** A build is in the queue, with one submission, or handed to the import, and in one place only. */
  ghost predicate OnePlace(s: State) {
    && WellFormed(s.queue, s.arrived)
    && HeldApart(s.queue, s.imports, s.arrived, s.submissions)
    && HeldOnce(s.submissions)
    && ImportedOnce(s.queue, s.imports, s.arrived)
  }

  /** A queue with no old build added keeps the rest apart. */
  lemma QueueChanges(s: State, queue: seq<Build>, arrived: nat)
    requires OnePlace(s) && s.arrived <= arrived
    requires forall b | b in queue :: b in s.queue || s.arrived <= b.proposal
    ensures HeldApart(queue, s.imports, arrived, s.submissions) && ImportedOnce(queue, s.imports, arrived)
  {
  }

  /** A submission that takes nothing keeps the builds in place. */
  lemma PhaseChanges(s: State, id: nat, phase: Phase)
    requires OnePlace(s) && id in s.submissions
    requires Holds(phase) ==> Holds(s.submissions[id].phase) && phase.build == s.submissions[id].phase.build
    ensures OnePlace(Reach(s, id, phase))
  {
    hide WellFormed, ImportedOnce, Apart;
  }

  lemma TakeKeepsOnePlace(s: State, id: nat, metadata: Metadata, i: nat)
    requires OnePlace(s) && id in s.submissions && i < |s.queue| && !Holds(s.submissions[id].phase)
    ensures OnePlace(Reach(Write(s, Without(s.queue, i)), id, Took(metadata, s.queue[i])))
  {
    WithoutWellFormed(s.queue, s.arrived, i);
    var rest, build := Without(s.queue, i), s.queue[i];
    forall b | b in rest ensures b in s.queue && b.proposal != build.proposal {
      WithoutMembers(s.queue, s.arrived, i, b);
    }
    QueueChanges(s, rest, s.arrived);
    assert build in s.queue;
    assert Apart(rest, s.imports, s.arrived, build.proposal);
    forall other | other in s.submissions && Holds(s.submissions[other].phase)
      ensures s.submissions[other].phase.build.proposal != build.proposal
    {
    }
    hide WellFormed, ImportedOnce, Apart, Without;
  }

  lemma ImportKeepsOnePlace(s: State, id: nat, success: bool)
    requires OnePlace(s) && id in s.submissions && s.submissions[id].phase.Importing?
    ensures
      var sub := s.submissions[id];
      var call := Import(id, sub.phase.build, sub.seal, sub.phase.metadata, success);
      OnePlace(Reach(s.(imports := s.imports + [call]), id, if success then Landed else Returned(false)))
  {
    hide WellFormed;
    var sub := s.submissions[id];
    var call := Import(id, sub.phase.build, sub.seal, sub.phase.metadata, success);
    var imports := s.imports + [call];
    assert Apart(s.queue, s.imports, s.arrived, sub.phase.build.proposal);
    forall k | 0 <= k < |s.imports| ensures s.imports[k].build.proposal != call.build.proposal {
      assert s.imports[k] in s.imports;
    }
    assert ImportedOnce(s.queue, imports, s.arrived);
    var submissions := Moved(s.submissions, id, if success then Landed else Returned(false));
    forall other | other in submissions && Holds(submissions[other].phase)
      ensures Apart(s.queue, imports, s.arrived, submissions[other].phase.build.proposal)
    {
      assert Apart(s.queue, s.imports, s.arrived, s.submissions[other].phase.build.proposal);
    }
  }

  lemma SectionKeepsOnePlace(s: State, verify: (Metadata, Seal) -> Verdict, id: nat, success: bool)
    requires OnePlace(s) && id in s.submissions
    ensures OnePlace(Section(s, verify, id, success))
  {
    hide WellFormed, HeldApart, HeldOnce, ImportedOnce;
    var sub := s.submissions[id];
    match sub.phase {
      case Verified(metadata) =>
        var i := Position(s.queue, sub.preHash);
        if i < |s.queue| {
          TakeKeepsOnePlace(s, id, metadata, i);
        } else {
          PhaseChanges(s, id, Returned(false));
        }
      case Importing(_, _) => ImportKeepsOnePlace(s, id, success);
      case Landed =>
        EmptyQueueKeepsOnePlace(s);
        PhaseChanges(Write(s, []), id, Cleared);
      case _ => PhaseChanges(s, id, Section(s, verify, id, success).submissions[id].phase);
    }
  }

  lemma EmptyQueueKeepsOnePlace(s: State)
    requires OnePlace(s)
    ensures OnePlace(Write(s, []))
  {
    QueueChanges(s, [], s.arrived);
  }

  lemma NextKeepsOnePlace(s: State, verify: (Metadata, Seal) -> Verdict, step: Step)
    requires OnePlace(s)
    ensures OnePlace(Next(s, verify, step))
  {
    hide WellFormed, ImportedOnce, Pushed, Section;
    match step {
      case Arrive(metadata) =>
        PushedWellFormed(s.queue, s.arrived, metadata);
        QueueChanges(s, Pushed(s.queue, Build(metadata, s.arrived)), s.arrived + 1);
      case Sync => EmptyQueueKeepsOnePlace(s);
      case Bump =>
      case Call(_, _, _) =>
      case Advance(id, success) => if id in s.submissions { SectionKeepsOnePlace(s, verify, id, success); }
    }
  }

  // ---- What was checked -----------------------------------------------------------------------

  ghost predicate CheckedFor(verify: (Metadata, Seal) -> Verdict, seen: set<Metadata>, metadata: Metadata, preHash: Hash,
                             seal: Seal)
  {
    metadata in seen && metadata.preHash == preHash && verify(metadata, seal) == Judged(true)
  }

  ghost predicate SubmissionChecked(verify: (Metadata, Seal) -> Verdict, seen: set<Metadata>, sub: Submission) {
    match sub.phase
    case Found(metadata) => metadata in seen && metadata.preHash == sub.preHash
    case Verified(metadata) => CheckedFor(verify, seen, metadata, sub.preHash, sub.seal)
    case Took(metadata, build) => Matches(verify, seen, metadata, build, sub)
    case Importing(metadata, build) => Matches(verify, seen, metadata, build, sub)
    case _ => true
  }

  ghost predicate Matches(verify: (Metadata, Seal) -> Verdict, seen: set<Metadata>, metadata: Metadata, build: Build,
                          sub: Submission)
  {
    && CheckedFor(verify, seen, metadata, sub.preHash, sub.seal)
    && build.metadata in seen && build.metadata.preHash == sub.preHash
  }

  ghost predicate ImportChecked(verify: (Metadata, Seal) -> Verdict, seen: set<Metadata>, i: Import) {
    i.build.metadata in seen && CheckedFor(verify, seen, i.checked, i.build.metadata.preHash, i.seal)
  }

  ghost predicate AllChecked(s: State, verify: (Metadata, Seal) -> Verdict) {
    && (forall b | b in s.queue :: b.metadata in s.seen)
    && (forall id {:trigger s.submissions[id]} | id in s.submissions ::
          SubmissionChecked(verify, s.seen, s.submissions[id]))
    && (forall i | i in s.imports :: ImportChecked(verify, s.seen, i))
  }

  lemma SectionChecked(s: State, verify: (Metadata, Seal) -> Verdict, id: nat, success: bool)
    requires AllChecked(s, verify) && id in s.submissions
    ensures
      var t := Section(s, verify, id, success);
      && SubmissionChecked(verify, s.seen, t.submissions[id])
      && (forall i | i in t.imports && i !in s.imports :: ImportChecked(verify, s.seen, i))
      && (forall b | b in t.queue :: b in s.queue)
  {
    var sub := s.submissions[id];
    assert SubmissionChecked(verify, s.seen, sub);
    var i := Position(s.queue, sub.preHash);
    if i < |s.queue| {
      assert s.queue[i] in s.queue;
      assert forall b | b in Without(s.queue, i) :: b in s.queue;
    }
  }

  lemma ArriveChecked(s: State, verify: (Metadata, Seal) -> Verdict, metadata: Metadata)
    requires OnePlace(s) && AllChecked(s, verify)
    ensures AllChecked(Next(s, verify, Arrive(metadata)), verify)
  {
    hide WellFormed, HeldApart, HeldOnce, ImportedOnce, Pushed;
    PushedWellFormed(s.queue, s.arrived, metadata);
    var t := Next(s, verify, Arrive(metadata));
    forall id | id in t.submissions ensures SubmissionChecked(verify, t.seen, t.submissions[id]) {
      assert SubmissionChecked(verify, s.seen, s.submissions[id]);
    }
    forall i | i in t.imports ensures ImportChecked(verify, t.seen, i) {
      assert ImportChecked(verify, s.seen, i);
    }
  }

  lemma AdvanceChecked(s: State, verify: (Metadata, Seal) -> Verdict, id: nat, success: bool)
    requires AllChecked(s, verify) && id in s.submissions
    ensures AllChecked(Section(s, verify, id, success), verify)
  {
    hide ImportChecked, SubmissionChecked, Without, Position;
    SectionChecked(s, verify, id, success);
    var t := Section(s, verify, id, success);
    assert t.submissions == Moved(s.submissions, id, t.submissions[id].phase) && t.seen == s.seen;
    hide Section;
  }

  lemma NextKeepsChecked(s: State, verify: (Metadata, Seal) -> Verdict, step: Step)
    requires OnePlace(s) && AllChecked(s, verify)
    ensures AllChecked(Next(s, verify, step), verify)
  {
    hide OnePlace, ImportChecked, Pushed, Section;
    match step {
      case Arrive(metadata) => ArriveChecked(s, verify, metadata);
      case Advance(id, success) => if id in s.submissions { AdvanceChecked(s, verify, id, success); }
      case _ =>
    }
  }

  /** The metadata that were brought differ in their pre-hashes. */
  ghost predicate PreHashDetermines(seen: set<Metadata>) {
    forall m, n | m in seen && n in seen && m.preHash == n.preHash :: m == n
  }

  // ---- What a submission returns --------------------------------------------------------------

  ghost predicate Succeeds(phase: Phase) {
    phase.Landed? || phase.Cleared? || phase == Returned(true)
  }

  ghost predicate HasLanded(s: State, id: nat) {
    exists i | i in s.imports :: i.submitter == id && i.success
  }

  ghost predicate ResultsExact(s: State) {
    && (forall i | i in s.imports :: i.submitter in s.submissions && !Before(s.submissions[i.submitter].phase))
    && (forall id {:trigger s.submissions[id]} | id in s.submissions ::
          Succeeds(s.submissions[id].phase) <==> HasLanded(s, id))
  }

  ghost predicate Before(phase: Phase) {
    phase.Called? || phase.Found? || phase.Verified? || Holds(phase)
  }

  lemma NextKeepsResults(s: State, verify: (Metadata, Seal) -> Verdict, step: Step)
    requires ResultsExact(s)
    ensures ResultsExact(Next(s, verify, step))
  {
    hide Position, Without, Pushed;
    var t := Next(s, verify, step);
    forall id | id in t.submissions ensures Succeeds(t.submissions[id].phase) <==> HasLanded(t, id) {
      ResultStep(s, verify, step, id);
    }
  }

  lemma ResultStep(s: State, verify: (Metadata, Seal) -> Verdict, step: Step, id: nat)
    requires ResultsExact(s)
    requires id in Next(s, verify, step).submissions
    ensures var t := Next(s, verify, step); Succeeds(t.submissions[id].phase) <==> HasLanded(t, id)
  {
    hide Position, Without, Pushed;
    var t := Next(s, verify, step);
    if step.Advance? && step.id in s.submissions && s.submissions[step.id].phase.Importing? {
      var latest := t.imports[|s.imports|];
      assert t.imports == s.imports + [latest];
      assert HasLanded(t, id) <==> HasLanded(s, id) || (latest.submitter == id && latest.success);
    } else {
      assert t.imports == s.imports;
      assert HasLanded(t, id) <==> HasLanded(s, id);
    }
  }

  // ---- Runs -----------------------------------------------------------------------------------

  ghost predicate Sound(s: State, verify: (Metadata, Seal) -> Verdict) {
    OnePlace(s) && AllChecked(s, verify) && ResultsExact(s)
  }

  lemma {:induction false} RunSound(s: State, verify: (Metadata, Seal) -> Verdict, steps: seq<Step>)
    requires Sound(s, verify)
    ensures Sound(Run(s, verify, steps), verify)
    decreases |steps|
  {
    if steps != [] {
      NextKeepsOnePlace(s, verify, steps[0]);
      NextKeepsChecked(s, verify, steps[0]);
      NextKeepsResults(s, verify, steps[0]);
      RunSound(Next(s, verify, steps[0]), verify, steps[1..]);
    }
  }

  /** In every interleaving the queued builds are on one head, at most 256 and in order; no build
      is handed to the import twice; each goes with a seal verified for its pre-hash, and for its
      very head and difficulty if pre-hashes determine them; a submission that has returned has
      said `true` exactly if its block was imported. */
  lemma EveryInterleaving(verify: (Metadata, Seal) -> Verdict, steps: seq<Step>)
    ensures
      var s := Run(START, verify, steps);
      && WellFormed(s.queue, s.arrived)
      && (forall k, l | 0 <= k < l < |s.imports| :: s.imports[k].build.proposal != s.imports[l].build.proposal)
      && (forall i | i in s.imports ::
            verify(i.checked, i.seal) == Judged(true) && i.checked.preHash == i.build.metadata.preHash)
      && (PreHashDetermines(s.seen) ==>
            forall i | i in s.imports :: verify(i.build.metadata, i.seal) == Judged(true))
      && (forall id | id in s.submissions && s.submissions[id].phase.Returned? ::
            s.submissions[id].phase.success <==> HasLanded(s, id))
  {
    RunSound(START, verify, steps);
    var s := Run(START, verify, steps);
    forall i | i in s.imports
      ensures verify(i.checked, i.seal) == Judged(true) && i.checked.preHash == i.build.metadata.preHash
      ensures PreHashDetermines(s.seen) ==> verify(i.build.metadata, i.seal) == Judged(true)
    {
      assert ImportChecked(verify, s.seen, i);
    }
  }

  // ---- The version ----------------------------------------------------------------------------

  ghost predicate Owes(phase: Phase) {
    phase.Took? || phase.Cleared?
  }

  ghost function Owing(submissions: map<nat, Submission>): set<nat> {
    set id | id in submissions && Owes(submissions[id].phase)
  }

  /** The writes that have not reached the version yet. */
  ghost function Pending(s: State): nat {
    s.owed + |Owing(s.submissions)|
  }

  ghost predicate Accounted(s: State) {
    s.writes == s.version + Pending(s)
  }

  ghost function Debt(phase: Phase): nat {
    if Owes(phase) then 1 else 0
  }

  lemma MovedOwing(submissions: map<nat, Submission>, id: nat, phase: Phase)
    requires id in submissions
    ensures |Owing(Moved(submissions, id, phase))| == |Owing(submissions)| + Debt(phase) - Debt(submissions[id].phase)
  {
    var others := Owing(submissions) - {id};
    assert Owing(submissions) == if Owes(submissions[id].phase) then others + {id} else others;
    assert Owing(Moved(submissions, id, phase)) == if Owes(phase) then others + {id} else others;
  }

  lemma SectionAccounted(s: State, verify: (Metadata, Seal) -> Verdict, id: nat, success: bool)
    requires Accounted(s) && id in s.submissions
    ensures Accounted(Section(s, verify, id, success))
  {
    hide Owing, Position, Without;
    var t := Section(s, verify, id, success);
    var phase := t.submissions[id].phase;
    assert t.submissions == Moved(s.submissions, id, phase);
    MovedOwing(s.submissions, id, phase);
  }

  lemma NextAccounted(s: State, verify: (Metadata, Seal) -> Verdict, step: Step)
    requires Accounted(s)
    ensures Accounted(Next(s, verify, step))
  {
    hide Section;
    var t := Next(s, verify, step);
    if step.Advance? {
      if step.id in s.submissions {
        SectionAccounted(s, verify, step.id, step.success);
      }
    } else {
      assert Owing(t.submissions) == Owing(s.submissions);
    }
  }

  lemma {:induction false} RunAccounted(s: State, verify: (Metadata, Seal) -> Verdict, steps: seq<Step>)
    requires Accounted(s)
    ensures
      var t := Run(s, verify, steps);
      && Accounted(t) && s.writes <= t.writes && s.version <= t.version
      && (t.writes == s.writes ==> t.queue == s.queue)
    decreases |steps|
  {
    if steps != [] {
      NextAccounted(s, verify, steps[0]);
      RunAccounted(Next(s, verify, steps[0]), verify, steps[1..]);
    }
  }

  /** Between two readings with the same version, the queue was not written precisely if as many
      writes await their increment at the second as at the first. So a version that is unchanged
      when no write awaits its increment proves head and metadata unchanged. */
  lemma SameVersion(verify: (Metadata, Seal) -> Verdict, first: seq<Step>, second: seq<Step>)
    ensures
      var s := Run(START, verify, first);
      var t := Run(s, verify, second);
      s.version == t.version ==>
        && (t.writes == s.writes <==> Pending(t) == Pending(s))
        && (Pending(t) == Pending(s) ==> t.queue == s.queue)
        && (Pending(t) == 0 ==> t.queue == s.queue)
  {
    assert Owing(START.submissions) == {};
    RunAccounted(START, verify, first);
    RunAccounted(Run(START, verify, first), verify, second);
  }

  /** The version alone proves nothing: a build has replaced the head, its increment is to come. */
  lemma VersionLags(verify: (Metadata, Seal) -> Verdict, before: Metadata, after: Metadata)
    requires before.bestHash != after.bestHash
    ensures
      var s := Run(START, verify, [Arrive(before), Bump]);
      var t := Run(s, verify, [Arrive(after)]);
      s.version == t.version && s.queue == [Build(before, 0)] && t.queue == [Build(after, 1)]
  {
    var a := Next(START, verify, Arrive(before));
    assert a.queue == [Build(before, 0)];
    var s := Next(a, verify, Bump);
    assert [Arrive(before), Bump][1..] == [Bump] && [Bump][1..] == [];
    assert Run(START, verify, [Arrive(before), Bump]) == Run(a, verify, [Bump]) == Run(s, verify, []) == s;
    assert [Arrive(after)][1..] == [];
    assert Run(s, verify, [Arrive(after)]) == Run(Next(s, verify, Arrive(after)), verify, []) == Next(s, verify, Arrive(after));
  }
}
