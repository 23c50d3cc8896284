/**
  What a source directory holds on disk, and how a run of durable steps can be cut short.

  A file's digest is modelled by its content (SHA-256 taken as collision free), a rename or an
  atomic write is one durable step, and the exclusive source lock is taken for granted: one
  operation runs at a time.
 */
module StoreTypes {
  import opened Basics
  import opened Identifiers
  import opened Outbox

  datatype Owner = SourceOwner | MeasurementOwner(id: NodeId)

  /** Where a file outside the closed layout was found. */
  datatype Place = StorageRoot | MeasurementsRoot | MeasurementDir(id: NodeId) | DeliveryDir(owner: Owner)

  /** A storage-relative file path. `token` identifies one minted staging name. */
  datatype Path =
    | SourceStateFile
    | MeasurementStateFile(id: NodeId)
    | PendingFile(owner: Owner, key: RecordKey)
    | DeadLetterFile(owner: Owner, key: RecordKey)
    | StagedFile(token: nat)
    | StrayFile(place: Place, name: string)
  {
    /** The closed destination grammar of normal commits. */
    predicate Final() {
      SourceStateFile? || MeasurementStateFile? || PendingFile? || DeadLetterFile?
    }

    /** The measurement whose storage subtree holds the path, if any. */
    function Subtree(): Option<NodeId> {
      match this
      case MeasurementStateFile(id) => Some(id)
      case PendingFile(MeasurementOwner(id), _) => Some(id)
      case DeadLetterFile(MeasurementOwner(id), _) => Some(id)
      case StrayFile(MeasurementDir(id), _) => Some(id)
      case StrayFile(DeliveryDir(MeasurementOwner(id)), _) => Some(id)
      case _ => None
    }
  }

  /** `facts` stands for every field the storage protocols carry along without reading. */
  datatype SourceState = SourceState(instance: InstanceId, generation: nat, facts: int)

  datatype MeasurementState = MeasurementState(source: InstanceId, instance: InstanceId, facts: int)

  datatype Doc =
    | SourceStateDoc(source: SourceState)
    | MeasurementStateDoc(measurement: MeasurementState)
    | RecordDoc(record: DeliveryRecord)
    | LetterDoc(letter: DeadLetter)
    | RawDoc(bytes: int)

  type Files = map<Path, Doc>

  datatype MeasurementIdentity = MeasurementIdentity(instance: InstanceId, resetCount: nat)

  datatype SourceIdentity = SourceIdentity(instance: InstanceId, measurements: map<NodeId, MeasurementIdentity>)

  datatype Operation =
    | Install(final: Path, staged: Path, prior: Option<Doc>, result: Doc)
    | Remove(final: Path, expected: Doc)
  {
    /** What the destination holds once the operation has been applied. */
    function Effect(): Option<Doc> {
      if Install? then Some(result) else None
    }

    predicate Valid() {
      final.Final() && (Install? ==> staged.StagedFile?)
    }
  }

  datatype Cause = Acquisition | DeliveryResult

  datatype CommitManifest = CommitManifest(
    sourceId: NodeId, sourceInstance: InstanceId, generation: nat,
    touched: map<NodeId, InstanceId>, additions: map<NodeId, InstanceId>,
    cause: Cause, entries: seq<Operation>)

  datatype Scope = Init | SourceReset | MeasurementReset(id: NodeId)

  datatype LineageManifest = LineageManifest(
    sourceId: NodeId, scope: Scope, from: Option<SourceIdentity>, target: SourceIdentity)

  /** The `.ffhn` directory: its files and its commit manifest. */
  datatype Storage = Storage(files: Files, commit: Slot<CommitManifest>)

  /** The durable content of one source directory. */
  datatype Disk = Disk(
    identity: Slot<SourceIdentity>, storage: Slot<Storage>, tombstone: bool, lineage: Slot<LineageManifest>)
  {
    function Files(): Files requires storage.Present? {
      storage.value.files
    }

    function WithFiles(files: Files): Disk requires storage.Present? {
      this.(storage := Present(storage.value.(files := files)))
    }

    function WithCommit(commit: Slot<CommitManifest>): Disk requires storage.Present? {
      this.(storage := Present(storage.value.(commit := commit)))
    }
  }

  const NewSource: Disk := Disk(Absent, Absent, false, Absent)

  /**
    When a run is cut: after `budget` more durable steps. `torn` tells whether an interrupted
    staging write leaves partial bytes, `kept` which staged files survive an interrupted discard.
   */
  datatype Fault = Fault(budget: nat, torn: bool, kept: set<nat>)

  datatype Outcome = Done | Failed | Crashed

  /** A possibly interrupted run: the disk it leaves, the steps left, and how it ended. */
  datatype Run = Run(disk: Disk, fault: Fault, outcome: Outcome) {
    predicate IsFailure() {
      !outcome.Done?
    }
    function PropagateFailure(): Run requires !outcome.Done? {
      this
    }
    function Extract(): (Disk, Fault) requires outcome.Done? {
      (disk, fault)
    }
  }

  function Stop(disk: Disk, fault: Fault): Run {
    Run(disk, fault, Failed)
  }

  function Finish(disk: Disk, fault: Fault): Run {
    Run(disk, fault, Done)
  }

  /** One durable step, or the crash just before it. */
  function Step(before: Disk, after: Disk, fault: Fault): Run {
    if fault.budget == 0 then Run(before, fault, Crashed)
    else Run(after, fault.(budget := fault.budget - 1), Done)
  }

  function Get(files: Files, path: Path): Option<Doc> {
    if path in files then Some(files[path]) else None
  }

  lemma SameFiles(a: Files, b: Files)
    requires forall p :: Get(a, p) == Get(b, p)
    ensures a == b
  {
    forall p ensures p in a <==> p in b { assert Get(a, p) == Get(b, p); }
    forall p | p in a ensures a[p] == b[p] { assert Get(a, p) == Get(b, p); }
  }

  /** Storage without its reserved staging directory. */
  function Durable(files: Files): Files {
    map p | p in files && !p.StagedFile? :: files[p]
  }

  /** The disk as normal work sees it: staging is invisible. */
  function View(disk: Disk): Disk {
    if disk.storage.Present? then disk.WithFiles(Durable(disk.Files())) else disk
  }

  function ReadSourceState(files: Files): Slot<SourceState> {
    if SourceStateFile !in files then Absent
    else
      var doc := files[SourceStateFile];
      if doc.SourceStateDoc? && doc.source.generation > 0 then Present(doc.source) else Unreadable
  }

  function FreshState(instance: InstanceId): SourceState {
    SourceState(instance, 1, 0)
  }

  function FreshMeasurement(source: InstanceId, instance: InstanceId): MeasurementState {
    MeasurementState(source, instance, 0)
  }
}
