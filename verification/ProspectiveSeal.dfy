/**
 The prospective final seal: one per store, stored with millisecond timestamps and loaded back through
 every constructor check. Canonical JSON and SHA-256 are injective; encoding truncates every timestamp.
 */
module ProspectiveSeal {
  import opened Wrappers
  import opened Calendar

  const SCHEMA := "candidate-v0.2-prospective-final-seal-v1"
  const STRATEGY_ID := "candidate.multi_model.v0_2"
  const POLICY_VERSION := "candidate-multi-model-v0.2"
  const DEVELOPMENT_CUTOFF := Instant(2026, 7, 1, 0)

  datatype Request = Request(
    codeCommit: string,
    datasetId: string,
    handoffRoot: string,
    qualificationId: string,
    qualificationRoot: string,
    qualified: bool,
    runId: int,
    attempt: int,
    verifiedAt: Instant,
    cutoff: Instant)
  {
    /** What the constructor of the request accepts. */
    predicate Accepted() {
      && qualified
      && runId >= 1 && attempt >= 1
      && cutoff == DEVELOPMENT_CUTOFF
      && FromVerifiedAt(cutoff, verifiedAt).Ok?
    }
  }

  datatype Core = Core(
    schema: string,
    strategyId: string,
    policyVersion: string,
    codeCommit: string,
    datasetId: string,
    handoffRoot: string,
    qualificationId: string,
    qualificationRoot: string,
    runId: int,
    attempt: int,
    window: Window)

  /** The timestamps of the encoded core have millisecond resolution. */
  function Encoded(core: Core): Core {
    var w := core.window;
    core.(window := Window(w.cutoff.Truncated(), w.verifiedAt.Truncated(), w.bridgeStart.Truncated(),
                           w.bridgeEnd.Truncated(), w.finalStart.Truncated(), w.finalEnd.Truncated()))
  }

  /** A digest is the encoded core it hashes. */
  datatype SealId = SealId(digested: Core)

  function IdOf(core: Core): SealId {
    SealId(Encoded(core))
  }

  datatype Seal = Seal(core: Core, id: SealId)
  {
    /** What the constructor of the seal accepts. */
    predicate Accepted() {
      && core.schema == SCHEMA && core.strategyId == STRATEGY_ID && core.policyVersion == POLICY_VERSION
      && core.runId >= 1 && core.attempt >= 1
      && core.window.cutoff == DEVELOPMENT_CUTOFF
      && FromVerifiedAt(core.window.cutoff, core.window.verifiedAt) == Ok(core.window)
      && id == IdOf(core)
    }
  }

  datatype Bytes = Bytes(core: Core, id: SealId)

  function Serialize(seal: Seal): Bytes {
    Bytes(Encoded(seal.core), seal.id)
  }

  function Build(request: Request): Option<Seal> {
    match FromVerifiedAt(request.cutoff, request.verifiedAt)
    case Err(_) => None
    case Ok(window) =>
      var core := Core(SCHEMA, STRATEGY_ID, POLICY_VERSION, request.codeCommit, request.datasetId, request.handoffRoot,
                       request.qualificationId, request.qualificationRoot, request.runId, request.attempt, window);
      var seal := Seal(core, IdOf(core));
      if seal.Accepted() then Some(seal) else None
  }

  datatype LoadError = MissingSeal | InvalidFields | EncodingChanged

  function Parse(raw: Bytes, id: SealId): Result<Seal, LoadError> {
    var seal := Seal(raw.core, raw.id);
    if !seal.Accepted() then Err(InvalidFields)
    else if seal.id != id || Serialize(seal) != raw then Err(EncodingChanged)
    else Ok(seal)
  }

  /** The seal as it reads back: only the verification timestamp has lost its microseconds. */
  function Restored(seal: Seal): Seal {
    seal.(core := seal.core.(window := seal.core.window.(verifiedAt := seal.core.window.verifiedAt.Truncated())))
  }

  lemma BoundariesSurviveEncoding(cutoff: Instant, verified: Instant)
    requires cutoff == DEVELOPMENT_CUTOFF && verified.Valid() && FromVerifiedAt(cutoff, verified).Ok?
    ensures var w := FromVerifiedAt(cutoff, verified).value;
            && w.cutoff.Truncated() == w.cutoff && w.bridgeStart.Truncated() == w.bridgeStart
            && w.bridgeEnd.Truncated() == w.bridgeEnd && w.finalStart.Truncated() == w.finalStart
            && w.finalEnd.Truncated() == w.finalEnd
  {
    var start := StrictNextMonthBoundary(verified).value;
    AddMonthsMoves(verified.MonthStart(), 1);
    AddMonthsMoves(start, 18);
  }

  /** Every accepted request builds a seal, and the stored seal loads back equal up to milliseconds. */
  lemma StoredSealLoadsBack(request: Request)
    requires request.Accepted() && request.verifiedAt.Valid()
    ensures Build(request).Some?
    ensures var seal := Build(request).value;
            && Parse(Serialize(seal), seal.id) == Ok(Restored(seal))
            && Restored(seal).id == seal.id
            && (Restored(seal) == seal <==> request.verifiedAt.micros % 1000 == 0)
  {
    var window := FromVerifiedAt(request.cutoff, request.verifiedAt).value;
    BoundariesSurviveEncoding(request.cutoff, request.verifiedAt);
    TruncationKeepsWindow(request.cutoff, request.verifiedAt);
    var seal := Build(request).value;
    assert Encoded(seal.core) == Restored(seal).core;
    assert Encoded(Restored(seal).core) == Restored(seal).core;
  }

  // ---------------------------------------------------------------- at most one seal per store

  type Pid = nat

  datatype Stage = Begun | MarkerMade | SealWritten | Returned | Raised | Crashed

  datatype Creator = Creator(seal: Seal, stage: Stage)

  datatype Store = Store(marker: bool, files: map<SealId, Bytes>, active: Option<SealId>)

  datatype World = World(store: Store, creators: map<Pid, Creator>, returned: seq<Seal>)

  datatype Action = Spawn(pid: Pid, request: Request) | Advance(pid: Pid) | Crash(pid: Pid)

  function Boot(): World {
    World(Store(false, map[], None), map[], [])
  }

  function Move(s: World, pid: Pid, stage: Stage): World
    requires pid in s.creators
  {
    s.(creators := s.creators[pid := s.creators[pid].(stage := stage)])
  }

  /** `write_immutable` accepts identical bytes and refuses others. */
  function Step(s: World, pid: Pid): World
    requires pid in s.creators
  {
    var seal := s.creators[pid].seal;
    match s.creators[pid].stage
    case Begun =>
      if s.store.marker then Move(s, pid, Raised)
      else Move(s.(store := s.store.(marker := true)), pid, MarkerMade)
    case MarkerMade =>
      if seal.id in s.store.files && s.store.files[seal.id] != Serialize(seal) then Move(s, pid, Raised)
      else Move(s.(store := s.store.(files := s.store.files[seal.id := Serialize(seal)])), pid, SealWritten)
    case SealWritten =>
      if s.store.active.Some? && s.store.active.value != seal.id then Move(s, pid, Raised)
      else Move(s.(store := s.store.(active := Some(seal.id)), returned := s.returned + [seal]), pid, Returned)
    case _ => s
  }

  /** `create` builds the seal first: a request the constructors refuse touches nothing. */
  function Next(s: World, action: Action): World {
    match action
    case Spawn(pid, request) =>
      if pid in s.creators || !request.Accepted() || !request.verifiedAt.Valid() || Build(request).None? then s
      else s.(creators := s.creators[pid := Creator(Build(request).value, Begun)])
    case Advance(pid) => if pid in s.creators then Step(s, pid) else s
    case Crash(pid) => if pid in s.creators && !s.creators[pid].stage.Raised? then Move(s, pid, Crashed) else s
  }

  function Run(s: World, actions: seq<Action>): World {
    if actions == [] then s else Next(Run(s, actions[..|actions| - 1]), actions[|actions| - 1])
  }

  /** `load` by seal id. */
  function Load(store: Store, id: SealId): Result<Seal, LoadError> {
    if id !in store.files then Err(MissingSeal) else Parse(store.files[id], id)
  }

  /** The seal was built from an accepted request, so it reads back. */
  ghost predicate Genuine(seal: Seal) {
    Parse(Serialize(seal), seal.id) == Ok(Restored(seal))
  }

  ghost predicate PastMarker(c: Creator) {
    c.stage.MarkerMade? || c.stage.SealWritten?
  }

  ghost predicate Single(s: World) {
    && (forall p :: p in s.creators ==> Genuine(s.creators[p].seal))
    && (forall p :: p in s.creators && PastMarker(s.creators[p]) ==> s.store.marker && s.returned == [])
    && (forall p, q :: p in s.creators && q in s.creators && PastMarker(s.creators[p]) && PastMarker(s.creators[q]) ==>
          p == q)
    && (forall p :: p in s.creators && s.creators[p].stage.MarkerMade? ==>
          s.store.files == map[] && s.store.active.None?)
    && (forall p :: p in s.creators && s.creators[p].stage.SealWritten? ==>
          s.store.files == map[s.creators[p].seal.id := Serialize(s.creators[p].seal)] && s.store.active.None?)
    && (!s.store.marker ==> s.store.files == map[] && s.store.active.None? && s.returned == [])
    && |s.store.files| <= 1
    && |s.returned| <= 1
    && (s.returned != [] ==>
          && s.store.active == Some(s.returned[0].id)
          && s.store.files == map[s.returned[0].id := Serialize(s.returned[0])]
          && Genuine(s.returned[0]))
  }

  lemma BuiltIsGenuine(request: Request)
    requires request.Accepted() && request.verifiedAt.Valid() && Build(request).Some?
    ensures Genuine(Build(request).value)
  {
    hide Parse, Build, Serialize, Restored, Request.Accepted;
    StoredSealLoadsBack(request);
  }

  lemma StepKeeps(s: World, pid: Pid)
    requires Single(s) && pid in s.creators
    ensures Single(Step(s, pid))
  {
    hide Genuine, Serialize;
  }

  lemma NextKeeps(s: World, action: Action)
    requires Single(s)
    ensures Single(Next(s, action))
  {
    hide Genuine, Serialize, Build, Request.Accepted, Step;
    match action
    case Spawn(pid, request) =>
      if request.Accepted() && request.verifiedAt.Valid() && Build(request).Some? { BuiltIsGenuine(request); }
    case Advance(pid) =>
      if pid in s.creators { StepKeeps(s, pid); }
    case Crash(pid) =>
  }

  lemma {:induction false} RunKeeps(actions: seq<Action>)
    ensures Single(Run(Boot(), actions))
  {
    if actions != [] {
      hide Single, Next;
      RunKeeps(actions[..|actions| - 1]);
      NextKeeps(Run(Boot(), actions[..|actions| - 1]), actions[|actions| - 1]);
    }
  }

  /** For any interleaving of creators and crashes: one seal file, one return, and what returned loads back. */
  lemma AtMostOneSealEver(actions: seq<Action>)
    ensures var s := Run(Boot(), actions);
            && |s.store.files| <= 1
            && |s.returned| <= 1
            && (s.returned != [] ==>
                  && Load(s.store, s.returned[0].id) == Ok(Restored(s.returned[0]))
                  && s.store.active == Some(s.returned[0].id)
                  && forall id :: id in s.store.files ==> id == s.returned[0].id)
  {
    hide Parse, Serialize, Restored, Run;
    RunKeeps(actions);
    var s := Run(Boot(), actions);
    if s.returned != [] {
      assert s.store.files[s.returned[0].id] == Serialize(s.returned[0]);
    }
  }

  // ---------------------------------------------------------------- refused requests

  /**
   What a caller can check beforehand: a qualified run, the locked cutoff, and nineteen months left in the
   calendar.
   */
  predicate Creatable(request: Request) {
    && request.qualified && request.runId >= 1 && request.attempt >= 1
    && request.cutoff == DEVELOPMENT_CUTOFF
    && !request.verifiedAt.Before(request.cutoff)
    && request.verifiedAt.MonthNumber() + 19 <= 12 * 9999 + 11
  }

  /** A request starts a creator exactly when it is creatable and its process is new. */
  lemma SpawnsIffCreatable(s: World, pid: Pid, request: Request)
    requires request.verifiedAt.Valid()
    ensures Next(s, Spawn(pid, request)) == s <==> pid in s.creators || !Creatable(request)
  {
    hide Build, Parse, Serialize, Restored;
    WindowExistsIff(DEVELOPMENT_CUTOFF, request.verifiedAt);
    if request.Accepted() { StoredSealLoadsBack(request); }
    if pid !in s.creators && Creatable(request) {
      assert pid in Next(s, Spawn(pid, request)).creators;
    }
  }

  lemma {:induction false} RunConcat(s: World, first: seq<Action>, second: seq<Action>)
    ensures Run(s, first + second) == Run(Run(s, first), second)
  {
    hide Next;
    if second == [] {
      assert first + second == first;
    } else {
      var whole := first + second;
      assert whole[..|whole| - 1] == first + second[..|second| - 1];
      RunConcat(s, first, second[..|second| - 1]);
    }
  }

  /** A refused request leaves no trace: wherever it is made in a run, the run ends as if it had not been made. */
  lemma RefusedRequestsWriteNothing(before: seq<Action>, pid: Pid, request: Request, after: seq<Action>)
    requires request.verifiedAt.Valid() && !Creatable(request)
    ensures Run(Boot(), before + [Spawn(pid, request)] + after) == Run(Boot(), before + after)
  {
    hide Next, Creatable;
    var reached := Run(Boot(), before);
    SpawnsIffCreatable(reached, pid, request);
    var longer := before + [Spawn(pid, request)];
    assert longer[..|longer| - 1] == before;
    RunConcat(Boot(), longer, after);
    RunConcat(Boot(), before, after);
  }
}
