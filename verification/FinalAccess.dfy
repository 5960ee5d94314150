/**
 Single-use authorization of sealed final rows. `FinalAccessStore.authorize` is four filesystem
 operations; any number of authorizers run them interleaved and may crash between any two.
 SHA-256 and canonical JSON are injective, so a seal directory is named by the stable identity
 and a receipt directory by the full identity.
 */
module FinalAccess {
  import opened Wrappers

  datatype Stable = Stable(
    codeCommit: string,
    datasetId: string,
    configuration: string,
    policy: string,
    splitPlan: string,
    preFinalId: string)

  /** The run id and attempt distinguish receipts but not seals. */
  datatype Identity = Identity(stable: Stable, runId: int, attempt: int)

  datatype ReceiptId = ReceiptId(schema: string, identity: Identity, evaluationCount: int)
  datatype Receipt = Receipt(schema: string, identity: Identity, evaluationCount: int, receiptId: ReceiptId)
  datatype Seal = Seal(schema: string, identity: Stable, sealId: Stable, receiptId: ReceiptId)

  const RECEIPT_SCHEMA := "durable-final-access-v1"
  const SEAL_SCHEMA := "durable-final-seal-v1"

  function ReceiptFor(identity: Identity): Receipt {
    Receipt(RECEIPT_SCHEMA, identity, 1, ReceiptId(RECEIPT_SCHEMA, identity, 1))
  }

  function SealFor(receipt: Receipt): Seal {
    Seal(SEAL_SCHEMA, receipt.identity.stable, receipt.identity.stable, receipt.receiptId)
  }

  /** What the receipt constructor accepts when a stored receipt is parsed. */
  predicate WellFormed(receipt: Receipt) {
    && receipt.schema == RECEIPT_SCHEMA
    && receipt.evaluationCount == 1
    && receipt.receiptId == ReceiptId(receipt.schema, receipt.identity, receipt.evaluationCount)
  }

  datatype Disk = Disk(
    sealDirs: set<Stable>,
    seals: map<Stable, Seal>,
    receiptDirs: set<ReceiptId>,
    receipts: map<ReceiptId, Receipt>)

  datatype AccessError =
    | AlreadySealed | ReceiptExists | WriteConflict | MissingReceipt | BadReceipt | MissingSeal | SealMismatch
    | IdentityMismatch

  function Load(disk: Disk, id: ReceiptId): Result<Receipt, AccessError> {
    if id !in disk.receipts then Err(MissingReceipt)
    else
      var receipt := disk.receipts[id];
      if !WellFormed(receipt) || receipt.receiptId != id then Err(BadReceipt)
      else if receipt.identity.stable !in disk.seals then Err(MissingSeal)
      else
        var seal := disk.seals[receipt.identity.stable];
        if seal.identity != receipt.identity.stable || seal.sealId != receipt.identity.stable
           || seal.receiptId != receipt.receiptId
        then Err(SealMismatch) else Ok(receipt)
  }

  function Require(disk: Disk, id: ReceiptId, expected: Identity): Result<Receipt, AccessError> {
    match Load(disk, id)
    case Err(error) => Err(error)
    case Ok(receipt) => if receipt.identity != expected then Err(IdentityMismatch) else Ok(receipt)
  }

  /** Whatever the files contain, one stable identity has at most one receipt that loads. */
  lemma OneReceiptLoadsPerIdentity(disk: Disk, a: ReceiptId, b: ReceiptId)
    requires Load(disk, a).Ok? && Load(disk, b).Ok?
    requires Load(disk, a).value.identity.stable == Load(disk, b).value.identity.stable
    ensures a == b && Load(disk, a) == Load(disk, b)
  {
    var seal := disk.seals[Load(disk, a).value.identity.stable];
    assert seal.receiptId == a && seal.receiptId == b;
  }

  /** A required receipt is exactly the one this identity would have been issued. */
  lemma RequireNamesOneReceipt(disk: Disk, id: ReceiptId, expected: Identity)
    ensures Require(disk, id, expected).Ok? ==>
              Require(disk, id, expected).value == ReceiptFor(expected) && id == ReceiptFor(expected).receiptId
    ensures Require(disk, id, expected).Ok? <==>
              Load(disk, id).Ok? && id == ReceiptFor(expected).receiptId
  {
  }

  // ---------------------------------------------------------------- interleaved authorizers

  type Pid = nat

  datatype Stage =
    | Begun | SealDirMade | SealWritten | ReceiptDirMade | Returned | RowsLoaded | Raised(error: AccessError)
    | Crashed

  datatype Process = Process(identity: Identity, stage: Stage)

  /** `returned` and `loaded` only ever grow: they remember processes that crashed afterwards. */
  datatype World = World(disk: Disk, processes: map<Pid, Process>, returned: seq<Identity>, loaded: seq<Identity>)

  datatype Action = Spawn(pid: Pid, identity: Identity) | Advance(pid: Pid) | Crash(pid: Pid)

  function Boot(): World {
    World(Disk({}, map[], {}, map[]), map[], [], [])
  }

  function Move(s: World, pid: Pid, stage: Stage): World
    requires pid in s.processes
  {
    s.(processes := s.processes[pid := s.processes[pid].(stage := stage)])
  }

  /** `mkdir(exist_ok=False)` of the seal directory. */
  function MakeSealDir(s: World, pid: Pid): World
    requires pid in s.processes
  {
    var stable := s.processes[pid].identity.stable;
    if stable in s.disk.sealDirs then Move(s, pid, Raised(AlreadySealed))
    else Move(s.(disk := s.disk.(sealDirs := s.disk.sealDirs + {stable})), pid, SealDirMade)
  }

  /** `write_immutable`: an atomic create that accepts identical bytes. */
  function WriteSeal(s: World, pid: Pid): World
    requires pid in s.processes
  {
    var identity := s.processes[pid].identity;
    var seal := SealFor(ReceiptFor(identity));
    if identity.stable in s.disk.seals && s.disk.seals[identity.stable] != seal then Move(s, pid, Raised(WriteConflict))
    else Move(s.(disk := s.disk.(seals := s.disk.seals[identity.stable := seal])), pid, SealWritten)
  }

  function MakeReceiptDir(s: World, pid: Pid): World
    requires pid in s.processes
  {
    var id := ReceiptFor(s.processes[pid].identity).receiptId;
    if id in s.disk.receiptDirs then Move(s, pid, Raised(ReceiptExists))
    else Move(s.(disk := s.disk.(receiptDirs := s.disk.receiptDirs + {id})), pid, ReceiptDirMade)
  }

  function WriteReceipt(s: World, pid: Pid): World
    requires pid in s.processes
  {
    var identity := s.processes[pid].identity;
    var receipt := ReceiptFor(identity);
    if receipt.receiptId in s.disk.receipts && s.disk.receipts[receipt.receiptId] != receipt then
      Move(s, pid, Raised(WriteConflict))
    else
      Move(s.(disk := s.disk.(receipts := s.disk.receipts[receipt.receiptId := receipt]),
              returned := s.returned + [identity]), pid, Returned)
  }

  /** `authorize_then_load_final`: the rows are materialized only by a process that holds a receipt. */
  function LoadRows(s: World, pid: Pid): World
    requires pid in s.processes
  {
    Move(s.(loaded := s.loaded + [s.processes[pid].identity]), pid, RowsLoaded)
  }

  function Next(s: World, action: Action): World {
    match action
    case Spawn(pid, identity) =>
      if pid in s.processes then s else s.(processes := s.processes[pid := Process(identity, Begun)])
    case Advance(pid) =>
      if pid !in s.processes then s
      else (
        match s.processes[pid].stage
        case Begun => MakeSealDir(s, pid)
        case SealDirMade => WriteSeal(s, pid)
        case SealWritten => MakeReceiptDir(s, pid)
        case ReceiptDirMade => WriteReceipt(s, pid)
        case Returned => LoadRows(s, pid)
        case _ => s)
    case Crash(pid) =>
      if pid !in s.processes || s.processes[pid].stage.Raised? then s else Move(s, pid, Crashed)
  }

  function Run(s: World, actions: seq<Action>): World {
    if actions == [] then s else Next(Run(s, actions[..|actions| - 1]), actions[|actions| - 1])
  }

  // ---------------------------------------------------------------- the invariant

  /** Past the exclusive mkdir of the seal and not yet done: the one process that may go on. */
  predicate Holding(p: Process) {
    p.stage.SealDirMade? || p.stage.SealWritten? || p.stage.ReceiptDirMade?
  }

  ghost predicate HoldersAreAlone(s: World) {
    && (forall p, q ::
          (p in s.processes && q in s.processes && Holding(s.processes[p]) && Holding(s.processes[q])
           && s.processes[p].identity.stable == s.processes[q].identity.stable) ==> p == q)
    && (forall p :: p in s.processes && Holding(s.processes[p]) ==>
          s.processes[p].identity.stable in s.disk.sealDirs && Unissued(s.disk, s.processes[p].identity.stable))
  }

  ghost predicate Unissued(disk: Disk, stable: Stable) {
    forall id :: id in disk.receipts ==> id.identity.stable != stable
  }

  ghost predicate Progress(s: World, p: Process) {
    var receipt := ReceiptFor(p.identity);
    && (p.stage.SealDirMade? ==> p.identity.stable !in s.disk.seals)
    && (p.stage.SealWritten? || p.stage.ReceiptDirMade? ==>
          p.identity.stable in s.disk.seals && s.disk.seals[p.identity.stable] == SealFor(receipt))
    && (p.stage.SealDirMade? || p.stage.SealWritten? ==> receipt.receiptId !in s.disk.receiptDirs)
    && (p.stage.Returned? ==> p.identity in s.returned)
    && (p.stage.Raised? ==> p.stage.error == AlreadySealed && p.identity.stable in s.disk.sealDirs)
  }

  /** Every stored receipt is canonical and its seal names exactly it. */
  ghost predicate Sealed(disk: Disk, id: ReceiptId)
    requires id in disk.receipts
  {
    && disk.receipts[id] == ReceiptFor(id.identity) && id == ReceiptFor(id.identity).receiptId
    && id.identity.stable in disk.seals
    && disk.seals[id.identity.stable] == SealFor(ReceiptFor(id.identity))
  }

  ghost predicate Issued(s: World, identity: Identity) {
    ReceiptFor(identity).receiptId in s.disk.receipts
  }

  ghost predicate AllProgress(s: World) {
    forall p :: p in s.processes ==> Progress(s, s.processes[p])
  }

  ghost predicate AllSealed(disk: Disk) {
    forall id :: id in disk.receipts ==> Sealed(disk, id)
  }

  /** Nothing exists for an identity whose seal directory does not. */
  ghost predicate DirectoriesFirst(disk: Disk) {
    && (forall id :: id in disk.receiptDirs ==> id.identity.stable in disk.sealDirs)
    && (forall stable :: stable in disk.seals ==> stable in disk.sealDirs)
  }

  /** What was returned is on disk, once per stable identity, and only returned identities loaded rows. */
  ghost predicate Accounted(s: World) {
    && (forall i :: 0 <= i < |s.returned| ==> Issued(s, s.returned[i]))
    && (forall i, j :: 0 <= i < j < |s.returned| ==> s.returned[i].stable != s.returned[j].stable)
    && (forall i :: 0 <= i < |s.loaded| ==> s.loaded[i] in s.returned)
  }

  ghost predicate Safe(s: World) {
    HoldersAreAlone(s) && AllProgress(s) && AllSealed(s.disk) && DirectoriesFirst(s.disk) && Accounted(s)
  }

  lemma AccountedFrame(s: World, s': World)
    requires Accounted(s) && s'.returned == s.returned && s'.loaded == s.loaded && s'.disk.receipts == s.disk.receipts
    ensures Accounted(s')
  {
    forall i | 0 <= i < |s'.returned| ensures Issued(s', s'.returned[i]) {
      assert Issued(s, s.returned[i]);
    }
  }

  lemma SealedFrame(disk: Disk, disk': Disk)
    requires AllSealed(disk) && disk'.receipts == disk.receipts
    requires forall stable :: stable in disk.seals ==>
             stable in disk'.seals && disk'.seals[stable] == disk.seals[stable]
    ensures AllSealed(disk')
  {
    forall id | id in disk'.receipts ensures Sealed(disk', id) {
      assert Sealed(disk, id);
    }
  }

  lemma MakeSealDirKeeps(s: World, pid: Pid)
    requires Safe(s) && pid in s.processes && s.processes[pid].stage.Begun?
    ensures Safe(MakeSealDir(s, pid))
  {
    var s' := MakeSealDir(s, pid);
    AccountedFrame(s, s');
    SealedFrame(s.disk, s'.disk);
    NewHolderIsAlone(s, pid);
    hide Accounted, HoldersAreAlone, AllSealed;
    forall p | p in s'.processes ensures Progress(s', s'.processes[p]) {
      assert Progress(s, s.processes[p]);
    }
  }

  /** Whoever makes the seal directory meets no other holder and no receipt of its identity. */
  lemma NewHolderIsAlone(s: World, pid: Pid)
    requires HoldersAreAlone(s) && AllSealed(s.disk) && DirectoriesFirst(s.disk)
    requires pid in s.processes && s.processes[pid].stage.Begun?
    ensures HoldersAreAlone(MakeSealDir(s, pid))
  {
    forall id | id in s.disk.receipts ensures id.identity.stable in s.disk.sealDirs {
      assert Sealed(s.disk, id);
    }
  }

  lemma WriteSealKeeps(s: World, pid: Pid)
    requires Safe(s) && pid in s.processes && s.processes[pid].stage.SealDirMade?
    ensures Safe(WriteSeal(s, pid))
  {
    var s' := WriteSeal(s, pid);
    assert Progress(s, s.processes[pid]);
    AccountedFrame(s, s');
    SealedFrame(s.disk, s'.disk);
    HolderAdvances(s, s', pid, s'.processes[pid].stage);
    SealWrittenProgress(s, pid);
    hide Accounted, HoldersAreAlone, AllSealed, AllProgress, Progress;
  }

  /** A holder that goes on, or stops, leaves every holder alone. */
  lemma HolderAdvances(s: World, s': World, pid: Pid, stage: Stage)
    requires HoldersAreAlone(s) && pid in s.processes && Holding(s.processes[pid])
    requires s'.processes == s.processes[pid := s.processes[pid].(stage := stage)]
    requires s'.disk.receipts == s.disk.receipts && s'.disk.sealDirs == s.disk.sealDirs
    ensures HoldersAreAlone(s')
  {
  }

  lemma SealWrittenProgress(s: World, pid: Pid)
    requires HoldersAreAlone(s) && AllProgress(s) && pid in s.processes && s.processes[pid].stage.SealDirMade?
    ensures AllProgress(WriteSeal(s, pid))
  {
    var s' := WriteSeal(s, pid);
    assert Progress(s, s.processes[pid]);
    forall p | p in s'.processes ensures Progress(s', s'.processes[p]) {
      assert Progress(s, s.processes[p]);
    }
  }

  lemma MakeReceiptDirKeeps(s: World, pid: Pid)
    requires Safe(s) && pid in s.processes && s.processes[pid].stage.SealWritten?
    ensures Safe(MakeReceiptDir(s, pid))
  {
    var s' := MakeReceiptDir(s, pid);
    assert Progress(s, s.processes[pid]);
    AccountedFrame(s, s');
    SealedFrame(s.disk, s'.disk);
    HolderAdvances(s, s', pid, s'.processes[pid].stage);
    ReceiptDirProgress(s, pid);
    hide Accounted, AllSealed, AllProgress, Progress;
  }

  lemma ReceiptDirProgress(s: World, pid: Pid)
    requires HoldersAreAlone(s) && AllProgress(s) && pid in s.processes && s.processes[pid].stage.SealWritten?
    ensures AllProgress(MakeReceiptDir(s, pid))
  {
    var s' := MakeReceiptDir(s, pid);
    assert Progress(s, s.processes[pid]);
    forall p | p in s'.processes ensures Progress(s', s'.processes[p]) {
      assert Progress(s, s.processes[p]);
    }
  }

  lemma WriteReceiptKeeps(s: World, pid: Pid)
    requires Safe(s) && pid in s.processes && s.processes[pid].stage.ReceiptDirMade?
    ensures Safe(WriteReceipt(s, pid))
  {
    ReceiptIsNew(s, pid);
    HolderReturns(s, pid);
    ReturnedProgress(s, pid);
    ReceiptIsSealed(s, pid);
    ReceiptIsAccounted(s, pid);
    hide Accounted, HoldersAreAlone, AllSealed, AllProgress, Progress;
  }

  /** The one holder of an identity finds no receipt of it. */
  lemma ReceiptIsNew(s: World, pid: Pid)
    requires HoldersAreAlone(s) && pid in s.processes && s.processes[pid].stage.ReceiptDirMade?
    ensures ReceiptFor(s.processes[pid].identity).receiptId !in s.disk.receipts
  {
  }

  lemma HolderReturns(s: World, pid: Pid)
    requires HoldersAreAlone(s) && pid in s.processes && s.processes[pid].stage.ReceiptDirMade?
    requires ReceiptFor(s.processes[pid].identity).receiptId !in s.disk.receipts
    ensures HoldersAreAlone(WriteReceipt(s, pid))
  {
  }

  lemma ReturnedProgress(s: World, pid: Pid)
    requires AllProgress(s) && pid in s.processes && s.processes[pid].stage.ReceiptDirMade?
    requires ReceiptFor(s.processes[pid].identity).receiptId !in s.disk.receipts
    ensures AllProgress(WriteReceipt(s, pid))
  {
    var s' := WriteReceipt(s, pid);
    forall p | p in s'.processes ensures Progress(s', s'.processes[p]) {
      assert Progress(s, s.processes[p]);
    }
  }

  lemma ReceiptIsSealed(s: World, pid: Pid)
    requires AllSealed(s.disk) && AllProgress(s) && pid in s.processes && s.processes[pid].stage.ReceiptDirMade?
    requires ReceiptFor(s.processes[pid].identity).receiptId !in s.disk.receipts
    ensures AllSealed(WriteReceipt(s, pid).disk)
  {
    var disk := WriteReceipt(s, pid).disk;
    assert Progress(s, s.processes[pid]);
    forall id | id in disk.receipts ensures Sealed(disk, id) {
      if id in s.disk.receipts { assert Sealed(s.disk, id); }
    }
  }

  lemma ReceiptIsAccounted(s: World, pid: Pid)
    requires Accounted(s) && HoldersAreAlone(s) && pid in s.processes && s.processes[pid].stage.ReceiptDirMade?
    requires ReceiptFor(s.processes[pid].identity).receiptId !in s.disk.receipts
    ensures Accounted(WriteReceipt(s, pid))
  {
    var s' := WriteReceipt(s, pid);
    var identity := s.processes[pid].identity;
    forall i | 0 <= i < |s.returned| ensures s.returned[i].stable != identity.stable {
      assert Issued(s, s.returned[i]);
    }
    forall i | 0 <= i < |s'.returned| ensures Issued(s', s'.returned[i]) {
      if i < |s.returned| { assert Issued(s, s.returned[i]); }
    }
  }

  lemma QuietMoveKeeps(s: World, pid: Pid, stage: Stage)
    requires Safe(s) && pid in s.processes && (stage.RowsLoaded? || stage.Crashed?)
    ensures Safe(Move(s, pid, stage))
  {
    var s' := Move(s, pid, stage);
    AccountedFrame(s, s');
    hide Accounted, AllSealed;
    forall p | p in s'.processes ensures Progress(s', s'.processes[p]) {
      assert Progress(s, s.processes[p]);
    }
  }

  lemma LoadRowsKeeps(s: World, pid: Pid)
    requires Safe(s) && pid in s.processes && s.processes[pid].stage.Returned?
    ensures Safe(LoadRows(s, pid))
  {
    assert Progress(s, s.processes[pid]);
    QuietMoveKeeps(s, pid, RowsLoaded);
    RowsAreAccounted(Move(s, pid, RowsLoaded), s.processes[pid].identity);
    hide Accounted, AllSealed, HoldersAreAlone, AllProgress;
  }

  /** Loading rows of a returned identity changes the record of loads alone. */
  lemma RowsAreAccounted(s: World, identity: Identity)
    requires HoldersAreAlone(s) && AllProgress(s) && Accounted(s) && identity in s.returned
    ensures var s' := s.(loaded := s.loaded + [identity]);
            HoldersAreAlone(s') && AllProgress(s') && Accounted(s')
  {
    var s' := s.(loaded := s.loaded + [identity]);
    forall p | p in s'.processes ensures Progress(s', s'.processes[p]) {
      assert Progress(s, s.processes[p]);
    }
    forall i | 0 <= i < |s'.returned| ensures Issued(s', s'.returned[i]) {
      assert Issued(s, s.returned[i]);
    }
  }

  lemma SpawnKeeps(s: World, pid: Pid, identity: Identity)
    requires Safe(s) && pid !in s.processes
    ensures Safe(s.(processes := s.processes[pid := Process(identity, Begun)]))
  {
    var s' := s.(processes := s.processes[pid := Process(identity, Begun)]);
    AccountedFrame(s, s');
    hide Accounted, AllSealed;
    forall p | p in s'.processes ensures Progress(s', s'.processes[p]) {
      if p != pid { assert Progress(s, s.processes[p]); }
    }
  }

  lemma NextKeeps(s: World, action: Action)
    requires Safe(s)
    ensures Safe(Next(s, action))
  {
    hide Safe, Move, MakeSealDir, WriteSeal, MakeReceiptDir, WriteReceipt, LoadRows;
    match action
    case Spawn(pid, identity) =>
      if pid !in s.processes { SpawnKeeps(s, pid, identity); }
    case Advance(pid) =>
      if pid in s.processes {
        match s.processes[pid].stage
        case Begun => MakeSealDirKeeps(s, pid);
        case SealDirMade => WriteSealKeeps(s, pid);
        case SealWritten => MakeReceiptDirKeeps(s, pid);
        case ReceiptDirMade => WriteReceiptKeeps(s, pid);
        case Returned => LoadRowsKeeps(s, pid);
        case _ =>
      }
    case Crash(pid) =>
      if pid in s.processes && !s.processes[pid].stage.Raised? { QuietMoveKeeps(s, pid, Crashed); }
  }

  lemma {:induction false} RunKeeps(s: World, actions: seq<Action>)
    requires Safe(s)
    ensures Safe(Run(s, actions))
  {
    if actions != [] {
      RunKeeps(s, actions[..|actions| - 1]);
      NextKeeps(Run(s, actions[..|actions| - 1]), actions[|actions| - 1]);
    }
  }

  // ---------------------------------------------------------------- safety over whole runs

  /** Under any interleaving and any crashes, a stable identity is authorized at most once, ever. */
  lemma AuthorizedAtMostOnce(actions: seq<Action>)
    ensures var s := Run(Boot(), actions);
            && (forall i, j :: 0 <= i < j < |s.returned| ==> s.returned[i].stable != s.returned[j].stable)
            && (forall i :: 0 <= i < |s.loaded| ==> s.loaded[i] in s.returned)
  {
    RunKeeps(Boot(), actions);
  }

  /** The only exception an authorizer ever raises is that the identity is already sealed. */
  lemma OnlySealConflictsRaise(actions: seq<Action>, pid: Pid)
    ensures var s := Run(Boot(), actions);
            pid in s.processes && s.processes[pid].stage.Raised? ==>
              s.processes[pid].stage.error == AlreadySealed && s.processes[pid].identity.stable in s.disk.sealDirs
  {
    RunKeeps(Boot(), actions);
    var s := Run(Boot(), actions);
    if pid in s.processes && s.processes[pid].stage.Raised? {
      assert Progress(s, s.processes[pid]);
    }
  }

  /** A receipt on disk is loadable, and the seal of its identity names no other receipt. */
  lemma StoredReceiptsLoad(actions: seq<Action>, id: ReceiptId)
    requires id in Run(Boot(), actions).disk.receipts
    ensures Load(Run(Boot(), actions).disk, id) == Ok(ReceiptFor(id.identity))
    ensures forall other ::
            other in Run(Boot(), actions).disk.receipts && other.identity.stable == id.identity.stable ==> other == id
  {
    RunKeeps(Boot(), actions);
    var disk := Run(Boot(), actions).disk;
    assert Sealed(disk, id);
    forall other | other in disk.receipts && other.identity.stable == id.identity.stable ensures other == id {
      assert Sealed(disk, other);
    }
  }

  ghost predicate Extends(s: World, s': World) {
    s.returned <= s'.returned && s.loaded <= s'.loaded && s.disk.sealDirs <= s'.disk.sealDirs
  }

  lemma {:induction false} HistoryGrows(s: World, actions: seq<Action>)
    ensures Extends(s, Run(s, actions))
  {
    if actions != [] {
      HistoryGrows(s, actions[..|actions| - 1]);
    }
  }

  lemma {:induction false} RunConcat(s: World, first: seq<Action>, second: seq<Action>)
    ensures Run(s, first + second) == Run(Run(s, first), second)
  {
    if second == [] {
      assert first + second == first;
    } else {
      assert (first + second)[..|first + second| - 1] == first + second[..|second| - 1];
      RunConcat(s, first, second[..|second| - 1]);
    }
  }

  /** A returned receipt stays loadable and required, whatever happens next; loaded rows always have one. */
  lemma ReturnedReceiptsStayLoadable(before: seq<Action>, after: seq<Action>, i: nat)
    requires i < |Run(Boot(), before).returned|
    ensures var identity := Run(Boot(), before).returned[i];
            Require(Run(Boot(), before + after).disk, ReceiptFor(identity).receiptId, identity)
            == Ok(ReceiptFor(identity))
  {
    var identity := Run(Boot(), before).returned[i];
    RunConcat(Boot(), before, after);
    HistoryGrows(Run(Boot(), before), after);
    RunKeeps(Boot(), before + after);
    var s := Run(Boot(), before + after);
    assert s.returned[i] == identity;
    assert Issued(s, s.returned[i]);
    StoredReceiptsLoad(before + after, ReceiptFor(identity).receiptId);
  }

  /** Final rows load only after the receipt is durable: it was loadable before the rows were. */
  lemma RowsFollowDurableReceipt(actions: seq<Action>, pid: Pid)
    requires pid in Run(Boot(), actions).processes && Run(Boot(), actions).processes[pid].stage.Returned?
    ensures var s := Run(Boot(), actions);
            var identity := s.processes[pid].identity;
            && Require(s.disk, ReceiptFor(identity).receiptId, identity) == Ok(ReceiptFor(identity))
            && Next(s, Advance(pid)).loaded == s.loaded + [identity]
  {
    var s := Run(Boot(), actions);
    RunKeeps(Boot(), actions);
    assert Progress(s, s.processes[pid]);
    var i :| 0 <= i < |s.returned| && s.returned[i] == s.processes[pid].identity;
    assert actions + [] == actions;
    hide Run, Require, Safe, Progress;
    ReturnedReceiptsStayLoadable(actions, [], i);
  }

  /** No step other than a holder of the receipt materializes rows. */
  lemma OnlyHoldersLoadRows(s: World, action: Action)
    requires Next(s, action).loaded != s.loaded
    ensures action.Advance? && action.pid in s.processes && s.processes[action.pid].stage.Returned?
  {
  }

  // ---------------------------------------------------------------- a crash consumes the authorization

  /** Sealed, without a receipt and with nobody left who could write one. */
  ghost predicate Blocked(s: World, stable: Stable) {
    && stable in s.disk.sealDirs
    && Unissued(s.disk, stable)
    && (forall p :: p in s.processes && Holding(s.processes[p]) ==> s.processes[p].identity.stable != stable)
    && (forall i :: 0 <= i < |s.returned| ==> s.returned[i].stable != stable)
  }

  lemma CrashBlocks(s: World, pid: Pid)
    requires Safe(s) && pid in s.processes && Holding(s.processes[pid])
    ensures Blocked(Next(s, Crash(pid)), s.processes[pid].identity.stable)
  {
    forall i | 0 <= i < |s.returned| ensures s.returned[i].stable != s.processes[pid].identity.stable {
      assert Issued(s, s.returned[i]);
    }
  }

  lemma NextKeepsBlocked(s: World, action: Action, stable: Stable)
    requires Safe(s) && Blocked(s, stable)
    ensures Blocked(Next(s, action), stable)
  {
    if action.Advance? && action.pid in s.processes {
      assert Progress(s, s.processes[action.pid]);
    }
    hide HoldersAreAlone, AllProgress, AllSealed, DirectoriesFirst, Accounted;
  }

  lemma {:induction false} RunKeepsBlocked(s: World, actions: seq<Action>, stable: Stable)
    requires Safe(s) && Blocked(s, stable)
    ensures Blocked(Run(s, actions), stable)
  {
    if actions != [] {
      RunKeepsBlocked(s, actions[..|actions| - 1], stable);
      RunKeeps(s, actions[..|actions| - 1]);
      NextKeepsBlocked(Run(s, actions[..|actions| - 1]), actions[|actions| - 1], stable);
    }
  }

  /** A crash between the seal's mkdir and the receipt's write blocks that identity forever. */
  lemma CrashAfterSealIsFinal(before: seq<Action>, pid: Pid, after: seq<Action>)
    requires pid in Run(Boot(), before).processes && Holding(Run(Boot(), before).processes[pid])
    ensures var stable := Run(Boot(), before).processes[pid].identity.stable;
            var s := Run(Next(Run(Boot(), before), Crash(pid)), after);
            && (forall i :: 0 <= i < |s.returned| ==> s.returned[i].stable != stable)
            && (forall id :: id in s.disk.receipts ==> id.identity.stable != stable)
  {
    var s := Run(Boot(), before);
    RunKeeps(Boot(), before);
    CrashBlocks(s, pid);
    NextKeeps(s, Crash(pid));
    RunKeepsBlocked(Next(s, Crash(pid)), after, s.processes[pid].identity.stable);
  }

  // ---------------------------------------------------------------- one undisturbed caller

  /** The store as one process sees it: `authorize` and `load` on the directory tree. */
  class FinalAccessStore {
    var disk: Disk

    constructor (disk: Disk)
      ensures this.disk == disk
    {
      this.disk := disk;
    }

    /** Undisturbed, `authorize` is the four steps of the protocol, whether they succeed or raise. */
    method Authorize(identity: Identity) returns (r: Result<Receipt, AccessError>)
      modifies this
      ensures var s := Run(World(old(disk), map[0 := Process(identity, Begun)], [], []),
                           [Advance(0), Advance(0), Advance(0), Advance(0)]);
              && disk == s.disk
              && 0 in s.processes
              && (r.Ok? <==> s.processes[0].stage == Returned)
              && (r.Ok? ==> r.value == ReceiptFor(identity))
              && (r.Err? ==> s.processes[0].stage == Raised(r.error))
    {
      var receipt := ReceiptFor(identity);
      ghost var s0 := World(old(disk), map[0 := Process(identity, Begun)], [], []);
      FourSteps(s0);
      if identity.stable in disk.sealDirs { return Err(AlreadySealed); }
      disk := disk.(sealDirs := disk.sealDirs + {identity.stable});
      if identity.stable in disk.seals && disk.seals[identity.stable] != SealFor(receipt) { return Err(WriteConflict); }
      disk := disk.(seals := disk.seals[identity.stable := SealFor(receipt)]);
      if receipt.receiptId in disk.receiptDirs { return Err(ReceiptExists); }
      disk := disk.(receiptDirs := disk.receiptDirs + {receipt.receiptId});
      if receipt.receiptId in disk.receipts && disk.receipts[receipt.receiptId] != receipt {
        return Err(WriteConflict);
      }
      disk := disk.(receipts := disk.receipts[receipt.receiptId := receipt]);
      return Ok(receipt);
    }
  }

  /** From any reachable disk, an undisturbed caller gets its receipt iff nobody sealed the identity before. */
  lemma AuthorizedIffUnsealed(actions: seq<Action>, pid: Pid)
    requires pid in Run(Boot(), actions).processes && Run(Boot(), actions).processes[pid].stage.Begun?
    ensures var s := Run(Boot(), actions);
            var a := Advance(pid);
            var done := Next(Next(Next(Next(s, a), a), a), a);
            && pid in done.processes
            && (done.processes[pid].stage.Returned? <==> s.processes[pid].identity.stable !in s.disk.sealDirs)
            && (!done.processes[pid].stage.Returned? ==>
                  done.processes[pid].stage == Raised(AlreadySealed) && done.disk == s.disk)
  {
    var s := Run(Boot(), actions);
    RunKeeps(Boot(), actions);
    var identity := s.processes[pid].identity;
    if ReceiptFor(identity).receiptId in s.disk.receipts {
      assert Sealed(s.disk, ReceiptFor(identity).receiptId);
    }
    hide Run, HoldersAreAlone, AllProgress, AllSealed, Accounted;
  }

  lemma FourSteps(s: World)
    ensures var a := Advance(0);
            Run(s, [a, a, a, a]) == Next(Next(Next(Next(s, a), a), a), a)
  {
    var a := Advance(0);
    assert [a, a, a, a][..3] == [a, a, a] && [a, a, a][..2] == [a, a] && [a, a][..1] == [a] && [a][..0] == [];
    assert Run(s, [a]) == Next(s, a);
    assert Run(s, [a, a]) == Next(Next(s, a), a);
    assert Run(s, [a, a, a]) == Next(Next(Next(s, a), a), a);
  }
}
