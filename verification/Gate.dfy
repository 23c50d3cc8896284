/** The lineage gate of normal operations, and the coherence it decides. */
module Gate {
  import opened Basics
  import opened Identifiers
  import opened Outbox
  import opened StoreTypes

  /** The record bears the source's lineage and, for a measurement's outbox, that measurement's. */
  predicate Stamped(record: DeliveryRecord, owner: Owner, identity: SourceIdentity, sid: NodeId) {
    && record.envelope.sourceId == sid
    && record.envelope.sourceInstance == identity.instance
    && match owner
       case SourceOwner => record.envelope.measurement == None
       case MeasurementOwner(m) =>
         && m in identity.measurements
         && record.envelope.measurement == Some(MeasurementStamp(m, identity.measurements[m].instance))
  }

  // ---------------------------------------------------------------- coherence

  /** One file is where it belongs and says what the identity authorises. */
  predicate FileFits(path: Path, doc: Doc, identity: SourceIdentity, sid: NodeId) {
    match path
    case SourceStateFile =>
      doc.SourceStateDoc? && doc.source.generation > 0 && doc.source.instance == identity.instance
    case MeasurementStateFile(m) =>
      && m in identity.measurements && doc.MeasurementStateDoc?
      && doc.measurement.source == identity.instance
      && doc.measurement.instance == identity.measurements[m].instance
    case PendingFile(owner, key) =>
      doc.RecordDoc? && doc.record.ValidPending() && doc.record.Key() == key
        && Stamped(doc.record, owner, identity, sid)
    case DeadLetterFile(owner, key) =>
      doc.LetterDoc? && doc.letter.Valid() && doc.letter.record.Key() == key
        && Stamped(doc.letter.record, owner, identity, sid)
    case StagedFile(_) => true
    case StrayFile(place, _) =>
      place == StorageRoot || (place.MeasurementDir? && place.id in identity.measurements)
  }

  predicate FilesCoherent(files: Files, identity: SourceIdentity, sid: NodeId) {
    && SourceStateFile in files
    && (forall m :: m in identity.measurements ==> MeasurementStateFile(m) in files)
    && (forall p :: p in files ==> FileFits(p, files[p], identity, sid))
  }

  /** Nothing exists yet, or identity and storage agree file by file. */
  predicate Coherent(disk: Disk, sid: NodeId) {
    if disk.identity.Absent? then disk.storage.Absent?
    else disk.identity.Present? && disk.storage.Present? && FilesCoherent(disk.Files(), disk.identity.value, sid)
  }

  // ---------------------------------------------------------------- the gate

  datatype SourceRefusal =
    | StorageWithoutIdentity | StorageMissing | StorageUnavailable | SourceStateMissing | SourceStateUnreadable
    | SourceInstanceMismatch | MeasurementStorageUnreadable | IdentityUnreadable | DeliveryArtifactUnreadable

  datatype SourceLineage = NeedsInitialization | ReadySource(identity: SourceIdentity, state: SourceState)
    | Refused(reason: SourceRefusal)

  datatype Hold =
    | MissingIdentityEntry | StateMissing | ArtifactUnreadable
    | StateSourceMismatch | StateInstanceMismatch | RecordMismatch

  datatype MeasurementLineage = ReadyMeasurement(state: MeasurementState) | NeverInitialized | Held(hold: Hold)

  datatype Inspection = Inspection(source: SourceLineage, measurements: map<NodeId, MeasurementLineage>)

  /** Every file in one owner's pending and dead-letter directories decodes under its own name. */
  predicate RecordsReadable(files: Files, owner: Owner) {
    forall p :: p in files ==>
      match p
      case PendingFile(o, key) =>
        o == owner ==> files[p].RecordDoc? && files[p].record.ValidPending() && files[p].record.Key() == key
      case DeadLetterFile(o, key) =>
        o == owner ==> files[p].LetterDoc? && files[p].letter.Valid() && files[p].letter.record.Key() == key
      case StrayFile(place, _) => place != DeliveryDir(owner)
      case _ => true
  }

  predicate RecordsStamped(files: Files, owner: Owner, identity: SourceIdentity, sid: NodeId)
    requires RecordsReadable(files, owner)
  {
    forall p :: p in files ==>
      match p
      case PendingFile(o, _) => o == owner ==> Stamped(files[p].record, owner, identity, sid)
      case DeadLetterFile(o, _) => o == owner ==> Stamped(files[p].letter.record, owner, identity, sid)
      case _ => true
  }

  function ReadMeasurementState(files: Files, m: NodeId): Slot<MeasurementState> {
    if MeasurementStateFile(m) !in files then Absent
    else if files[MeasurementStateFile(m)].MeasurementStateDoc? then Present(files[MeasurementStateFile(m)].measurement)
    else Unreadable
  }

  function ArtifactIds(files: Files): set<NodeId> {
    set p | p in files && p.Subtree().Some? :: p.Subtree().value
  }

  /** Rows of the table for one measurement. */
  function InspectMeasurement(files: Files, m: NodeId, identity: SourceIdentity, sid: NodeId): MeasurementLineage {
    match ReadMeasurementState(files, m)
    case Unreadable => Held(ArtifactUnreadable)
    case Absent =>
      if m in identity.measurements then Held(StateMissing)
      else if m in ArtifactIds(files) then Held(ArtifactUnreadable)
      else NeverInitialized
    case Present(state) =>
      if m !in identity.measurements then Held(MissingIdentityEntry)
      else if state.source != identity.instance then Held(StateSourceMismatch)
      else if state.instance != identity.measurements[m].instance then Held(StateInstanceMismatch)
      else if !RecordsReadable(files, MeasurementOwner(m)) then Held(ArtifactUnreadable)
      else if !RecordsStamped(files, MeasurementOwner(m), identity, sid) then Held(RecordMismatch)
      else ReadyMeasurement(state)
  }

  /** `inspect_lineage`. */
  function Inspect(disk: Disk, sid: NodeId, declared: set<NodeId>): Inspection {
    if disk.identity.Unreadable? then Inspection(Refused(IdentityUnreadable), map[])
    else if disk.identity.Absent? then
      if !disk.storage.Absent? then Inspection(Refused(StorageWithoutIdentity), map[])
      else Inspection(NeedsInitialization, map m | m in declared :: NeverInitialized)
    else if disk.storage.Absent? then Inspection(Refused(StorageMissing), map[])
    else if disk.storage.Unreadable? then Inspection(Refused(StorageUnavailable), map[])
    else
      var identity, files := disk.identity.value, disk.Files();
      match ReadSourceState(files)
      case Absent => Inspection(Refused(SourceStateMissing), map[])
      case Unreadable => Inspection(Refused(SourceStateUnreadable), map[])
      case Present(state) =>
        if state.instance != identity.instance then Inspection(Refused(SourceInstanceMismatch), map[])
        else if !RecordsReadable(files, SourceOwner) || !RecordsStamped(files, SourceOwner, identity, sid) then
          Inspection(Refused(DeliveryArtifactUnreadable), map[])
        else if exists p | p in files :: p.StrayFile? && p.place == MeasurementsRoot then
          Inspection(Refused(MeasurementStorageUnreadable), map[])
        else
          Inspection(
            ReadySource(identity, state),
            map m | m in declared + identity.measurements.Keys + ArtifactIds(files) ::
              InspectMeasurement(files, m, identity, sid))
  }

  /** Nothing refused and nothing held. */
  predicate Accepts(inspection: Inspection) {
    && !inspection.source.Refused?
    && forall m :: m in inspection.measurements ==> !inspection.measurements[m].Held?
  }

  lemma ReadyMeasurementFits(files: Files, m: NodeId, identity: SourceIdentity, sid: NodeId, p: Path)
    requires p in files && p.Subtree() == Some(m)
    requires !InspectMeasurement(files, m, identity, sid).Held?
    ensures m in identity.measurements && FileFits(p, files[p], identity, sid)
  {
    assert m in ArtifactIds(files);
  }

  /**
    The gate accepts exactly the coherent stores, and then it reports NeedsInitialization, or Ready
    with every registered measurement Ready and every other declared one NeverInitialized.
   */
  lemma GateDecidesCoherence(disk: Disk, sid: NodeId, declared: set<NodeId>)
    ensures Accepts(Inspect(disk, sid, declared)) <==> Coherent(disk, sid)
    ensures
      var i := Inspect(disk, sid, declared);
      Accepts(i) ==>
        if disk.identity.Absent? then i.source == NeedsInitialization
        else
          && i.source == ReadySource(disk.identity.value, ReadSourceState(disk.Files()).value)
          && (forall m :: m in disk.identity.value.measurements ==>
                m in i.measurements && i.measurements[m].ReadyMeasurement?)
          && (forall m :: m in i.measurements && m !in disk.identity.value.measurements ==>
                m in declared && i.measurements[m].NeverInitialized?)
  {
    if disk.identity.Present? && disk.storage.Present? {
      var identity, files, i := disk.identity.value, disk.Files(), Inspect(disk, sid, declared);
      if Accepts(i) {
        forall p | p in files ensures FileFits(p, files[p], identity, sid) {
          if p.Subtree().Some? {
            assert p.Subtree().value in ArtifactIds(files);
            assert !i.measurements[p.Subtree().value].Held?;
            ReadyMeasurementFits(files, p.Subtree().value, identity, sid, p);
          }
        }
        forall m | m in identity.measurements ensures MeasurementStateFile(m) in files {
          assert !i.measurements[m].Held?;
        }
        forall m | m in ArtifactIds(files) ensures m in identity.measurements {
          var p :| p in files && p.Subtree() == Some(m);
          assert !i.measurements[m].Held?;
          ReadyMeasurementFits(files, m, identity, sid, p);
        }
      }
      if FilesCoherent(files, identity, sid) {
        CoherentAccepted(files, identity, sid);
      }
    }
  }

  lemma CoherentAccepted(files: Files, identity: SourceIdentity, sid: NodeId)
    requires FilesCoherent(files, identity, sid)
    ensures RecordsReadable(files, SourceOwner) && RecordsStamped(files, SourceOwner, identity, sid)
    ensures ReadSourceState(files).Present?
    ensures ReadSourceState(files).value.instance == identity.instance
    ensures !exists p | p in files :: p.StrayFile? && p.place == MeasurementsRoot
    ensures forall m :: m in ArtifactIds(files) ==> m in identity.measurements
    ensures forall m :: m in identity.measurements ==> InspectMeasurement(files, m, identity, sid).ReadyMeasurement?
  {
    assert FileFits(SourceStateFile, files[SourceStateFile], identity, sid);
    forall p | p in files ensures FileFits(p, files[p], identity, sid) {}
    forall m | m in ArtifactIds(files) ensures m in identity.measurements {
      var p :| p in files && p.Subtree() == Some(m);
      assert FileFits(p, files[p], identity, sid);
    }
    forall m | m in identity.measurements ensures InspectMeasurement(files, m, identity, sid).ReadyMeasurement? {
      assert FileFits(MeasurementStateFile(m), files[MeasurementStateFile(m)], identity, sid);
      assert RecordsReadable(files, MeasurementOwner(m));
    }
  }
}
