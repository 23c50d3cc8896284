/** What the lineage gate answers for the source and for each measurement, spelled out in the files' own terms. */
module GateVerdicts {
  import opened Basics
  import opened Identifiers
  import opened Outbox
  import opened StoreTypes
  import opened Gate

  /** The stamp an emitter's records must carry; a measurement needs its identity entry. */
  predicate BearsStamp(envelope: Envelope, owner: Owner, identity: SourceIdentity, sid: NodeId) {
    && envelope.sourceId == sid && envelope.sourceInstance == identity.instance
    && match owner
       case SourceOwner => envelope.measurement == None
       case MeasurementOwner(m) =>
         && m in identity.measurements
         && envelope.measurement == Some(MeasurementStamp(m, identity.measurements[m].instance))
  }

  /** A file of this emitter's queues decodes under its own name; nothing else lies in their directories. */
  predicate Readable(path: Path, doc: Doc, owner: Owner) {
    match path
    case PendingFile(o, key) =>
      o == owner ==>
        && doc.RecordDoc? && doc.record.ValidPending()
        && doc.record.envelope.eventId == key.eventId && doc.record.routeId == key.routeId
    case DeadLetterFile(o, key) =>
      o == owner ==>
        && doc.LetterDoc? && doc.letter.Valid()
        && doc.letter.record.envelope.eventId == key.eventId && doc.letter.record.routeId == key.routeId
    case StrayFile(DeliveryDir(o), _) => o != owner
    case _ => true
  }

  /** A readable file of this emitter's queues bears its stamp. */
  predicate StampedFile(path: Path, doc: Doc, owner: Owner, identity: SourceIdentity, sid: NodeId) {
    match path
    case PendingFile(o, _) => o == owner && doc.RecordDoc? ==> BearsStamp(doc.record.envelope, owner, identity, sid)
    case DeadLetterFile(o, _) =>
      o == owner && doc.LetterDoc? ==> BearsStamp(doc.letter.record.envelope, owner, identity, sid)
    case _ => true
  }

  predicate AllReadable(files: Files, owner: Owner) {
    forall p :: p in files ==> Readable(p, files[p], owner)
  }

  predicate AllStamped(files: Files, owner: Owner, identity: SourceIdentity, sid: NodeId) {
    forall p :: p in files ==> StampedFile(p, files[p], owner, identity, sid)
  }

  lemma QueuesSpelledOut(files: Files, owner: Owner, identity: SourceIdentity, sid: NodeId)
    ensures RecordsReadable(files, owner) <==> AllReadable(files, owner)
    ensures RecordsReadable(files, owner) ==>
      (RecordsStamped(files, owner, identity, sid) <==> AllStamped(files, owner, identity, sid))
  {
    forall p | p in files && AllReadable(files, owner)
      ensures
        match p
        case PendingFile(o, key) =>
          o == owner ==> files[p].RecordDoc? && files[p].record.ValidPending() && files[p].record.Key() == key
        case DeadLetterFile(o, key) =>
          o == owner ==> files[p].LetterDoc? && files[p].letter.Valid() && files[p].letter.record.Key() == key
        case StrayFile(place, _) => place != DeliveryDir(owner)
        case _ => true
    {
      assert Readable(p, files[p], owner);
    }
    if RecordsReadable(files, owner) && AllStamped(files, owner, identity, sid) {
      forall p | p in files && (p.PendingFile? || p.DeadLetterFile?) && p.owner == owner
        ensures Stamped(if p.PendingFile? then files[p].record else files[p].letter.record, owner, identity, sid)
      {
        assert StampedFile(p, files[p], owner, identity, sid);
      }
    }
  }

  // ---------------------------------------------------------------- the source

  /** The source state can be decoded and has a generation. */
  predicate StateReads(files: Files) {
    && SourceStateFile in files && files[SourceStateFile].SourceStateDoc?
    && files[SourceStateFile].source.generation > 0
  }

  /** The source state is readable and of the identity's instance. */
  predicate StateMatches(files: Files, identity: SourceIdentity) {
    StateReads(files) && files[SourceStateFile].source.instance == identity.instance
  }

  predicate StrayAmongMeasurements(files: Files) {
    exists p | p in files :: p.StrayFile? && p.place == MeasurementsRoot
  }

  /**
    Which of its ten answers the gate gives for the source, each exactly when. No file of any measurement's
    subtree is consulted.
   */
  lemma SourceVerdict(disk: Disk, sid: NodeId, declared: set<NodeId>)
    ensures
      var answer := Inspect(disk, sid, declared).source;
      && (answer == Refused(IdentityUnreadable) <==> disk.identity.Unreadable?)
      && (answer == Refused(StorageWithoutIdentity) <==> disk.identity.Absent? && !disk.storage.Absent?)
      && (answer == NeedsInitialization <==> disk.identity.Absent? && disk.storage.Absent?)
      && (answer == Refused(StorageMissing) <==> disk.identity.Present? && disk.storage.Absent?)
      && (answer == Refused(StorageUnavailable) <==> disk.identity.Present? && disk.storage.Unreadable?)
    ensures disk.identity.Present? && disk.storage.Present? ==>
      var answer, files, identity := Inspect(disk, sid, declared).source, disk.Files(), disk.identity.value;
      var queues := AllReadable(files, SourceOwner) && AllStamped(files, SourceOwner, identity, sid);
      && (answer == Refused(SourceStateMissing) <==> SourceStateFile !in files)
      && (answer == Refused(SourceStateUnreadable) <==> SourceStateFile in files && !StateReads(files))
      && (answer == Refused(SourceInstanceMismatch) <==> StateReads(files) && !StateMatches(files, identity))
      && (answer == Refused(DeliveryArtifactUnreadable) <==> StateMatches(files, identity) && !queues)
      && (answer == Refused(MeasurementStorageUnreadable) <==>
            StateMatches(files, identity) && queues && StrayAmongMeasurements(files))
      && (StateMatches(files, identity) && queues && !StrayAmongMeasurements(files) ==>
            answer == ReadySource(identity, files[SourceStateFile].source))
  {
    if disk.identity.Present? && disk.storage.Present? {
      QueuesSpelledOut(disk.Files(), SourceOwner, disk.identity.value, sid);
    }
  }

  // ---------------------------------------------------------------- one measurement

  /** Some file lies in the measurement's subtree. */
  predicate HasFiles(files: Files, m: NodeId) {
    exists p | p in files :: p.Subtree() == Some(m)
  }

  /** The measurement's state can be decoded. */
  predicate MeasurementReads(files: Files, m: NodeId) {
    MeasurementStateFile(m) in files && files[MeasurementStateFile(m)].MeasurementStateDoc?
  }

  /** It is registered and its state bears both instances. */
  predicate MeasurementMatches(files: Files, m: NodeId, identity: SourceIdentity) {
    && m in identity.measurements && MeasurementReads(files, m)
    && files[MeasurementStateFile(m)].measurement.source == identity.instance
    && files[MeasurementStateFile(m)].measurement.instance == identity.measurements[m].instance
  }

  /**
    Which of its answers the gate gives for one measurement of a ready source, each exactly when. It lists the
    declared, the registered and the stored measurements, and each answer depends on the identity and on the
    measurement's own subtree alone.
   */
  lemma MeasurementVerdict(disk: Disk, sid: NodeId, declared: set<NodeId>, m: NodeId)
    requires disk.identity.Present? && disk.storage.Present? && Inspect(disk, sid, declared).source.ReadySource?
    ensures m in Inspect(disk, sid, declared).measurements <==>
      m in declared || m in disk.identity.value.measurements || HasFiles(disk.Files(), m)
    ensures m in Inspect(disk, sid, declared).measurements ==>
      var answer := Inspect(disk, sid, declared).measurements[m];
      var files, identity, owner := disk.Files(), disk.identity.value, MeasurementOwner(m);
      var registered, stored := m in identity.measurements, MeasurementStateFile(m) in files;
      && (answer == NeverInitialized <==> !registered && !HasFiles(files, m))
      && (answer == Held(StateMissing) <==> registered && !stored)
      && (answer == Held(MissingIdentityEntry) <==> !registered && MeasurementReads(files, m))
      && (answer == Held(StateSourceMismatch) <==>
            registered && MeasurementReads(files, m)
              && files[MeasurementStateFile(m)].measurement.source != identity.instance)
      && (answer == Held(StateInstanceMismatch) <==>
            registered && MeasurementReads(files, m)
              && files[MeasurementStateFile(m)].measurement.source == identity.instance
              && files[MeasurementStateFile(m)].measurement.instance != identity.measurements[m].instance)
      && (answer == Held(ArtifactUnreadable) <==>
            || (stored && !MeasurementReads(files, m))
            || (!stored && !registered && HasFiles(files, m))
            || (MeasurementMatches(files, m, identity) && !AllReadable(files, owner)))
      && (answer == Held(RecordMismatch) <==>
            MeasurementMatches(files, m, identity) && AllReadable(files, owner)
              && !AllStamped(files, owner, identity, sid))
      && (MeasurementMatches(files, m, identity) && AllReadable(files, owner)
            && AllStamped(files, owner, identity, sid) ==>
            answer == ReadyMeasurement(files[MeasurementStateFile(m)].measurement))
  {
    var files := disk.Files();
    QueuesSpelledOut(files, MeasurementOwner(m), disk.identity.value, sid);
    SubtreeIsListed(files, m);
  }

  lemma SubtreeIsListed(files: Files, m: NodeId)
    ensures m in ArtifactIds(files) <==> HasFiles(files, m)
    ensures MeasurementStateFile(m) in files ==> HasFiles(files, m)
  {
    if MeasurementStateFile(m) in files {
      assert MeasurementStateFile(m).Subtree() == Some(m);
    }
  }

  /** Two stores that differ in one measurement's subtree and in staging only. */
  predicate SameBeyond(a: Disk, b: Disk, m: NodeId)
    requires a.storage.Present? && b.storage.Present?
  {
    && a.identity == b.identity
    && (forall p :: p in a.Files() && p.Subtree() != Some(m) && !p.StagedFile? ==>
          p in b.Files() && b.Files()[p] == a.Files()[p])
    && (forall p :: p in b.Files() && p.Subtree() != Some(m) && !p.StagedFile? ==> p in a.Files())
  }

  /** So the queues of every other emitter are equally good. */
  lemma QueuesAgree(a: Disk, b: Disk, m: NodeId, owner: Owner, identity: SourceIdentity, sid: NodeId)
    requires a.storage.Present? && b.storage.Present? && SameBeyond(a, b, m) && owner != MeasurementOwner(m)
    ensures AllReadable(a.Files(), owner) ==> AllReadable(b.Files(), owner)
    ensures AllStamped(a.Files(), owner, identity, sid) ==> AllStamped(b.Files(), owner, identity, sid)
  {
    forall p | p in b.Files() && AllReadable(a.Files(), owner) ensures Readable(p, b.Files()[p], owner) {
      if p.Subtree() != Some(m) && !p.StagedFile? {
        assert Readable(p, a.Files()[p], owner);
      }
    }
    forall p | p in b.Files() && AllStamped(a.Files(), owner, identity, sid)
      ensures StampedFile(p, b.Files()[p], owner, identity, sid)
    {
      if p.Subtree() != Some(m) && !p.StagedFile? {
        assert StampedFile(p, a.Files()[p], owner, identity, sid);
      }
    }
  }

  lemma FilesAgree(a: Disk, b: Disk, m: NodeId, other: NodeId)
    requires a.storage.Present? && b.storage.Present? && SameBeyond(a, b, m) && other != m
    ensures HasFiles(a.Files(), other) ==> HasFiles(b.Files(), other)
    ensures StrayAmongMeasurements(a.Files()) ==> StrayAmongMeasurements(b.Files())
    ensures Get(a.Files(), SourceStateFile) == Get(b.Files(), SourceStateFile)
    ensures Get(a.Files(), MeasurementStateFile(other)) == Get(b.Files(), MeasurementStateFile(other))
  {
    if p :| p in a.Files() && p.Subtree() == Some(other) {
      assert p in b.Files();
    }
    if p :| p in a.Files() && p.StrayFile? && p.place == MeasurementsRoot {
      assert p in b.Files();
    }
  }

  lemma SourceAgrees(a: Disk, b: Disk, sid: NodeId, declared: set<NodeId>, m: NodeId, other: NodeId)
    requires a.storage.Present? && b.storage.Present? && SameBeyond(a, b, m) && SameBeyond(b, a, m) && other != m
    ensures Inspect(a, sid, declared).source == Inspect(b, sid, declared).source
  {
    if a.identity.Present? {
      FilesAgree(a, b, m, other);
      FilesAgree(b, a, m, other);
      QueuesAgree(a, b, m, SourceOwner, a.identity.value, sid);
      QueuesAgree(b, a, m, SourceOwner, a.identity.value, sid);
      QueuesSpelledOut(a.Files(), SourceOwner, a.identity.value, sid);
      QueuesSpelledOut(b.Files(), SourceOwner, a.identity.value, sid);
    }
  }

  lemma SubtreesAgree(a: Disk, b: Disk, m: NodeId, other: NodeId)
    requires a.storage.Present? && b.storage.Present? && SameBeyond(a, b, m) && SameBeyond(b, a, m) && other != m
    ensures other in ArtifactIds(a.Files()) <==> other in ArtifactIds(b.Files())
    ensures ReadMeasurementState(a.Files(), other) == ReadMeasurementState(b.Files(), other)
  {
    FilesAgree(a, b, m, other);
    FilesAgree(b, a, m, other);
    SubtreeIsListed(a.Files(), other);
    SubtreeIsListed(b.Files(), other);
  }

  lemma QueuesMatch(a: Disk, b: Disk, m: NodeId, owner: Owner, identity: SourceIdentity, sid: NodeId)
    requires a.storage.Present? && b.storage.Present? && SameBeyond(a, b, m) && SameBeyond(b, a, m)
    requires owner != MeasurementOwner(m)
    ensures RecordsReadable(a.Files(), owner) <==> RecordsReadable(b.Files(), owner)
    ensures RecordsReadable(a.Files(), owner) && RecordsReadable(b.Files(), owner) ==>
      (RecordsStamped(a.Files(), owner, identity, sid) <==> RecordsStamped(b.Files(), owner, identity, sid))
  {
    QueuesAgree(a, b, m, owner, identity, sid);
    QueuesAgree(b, a, m, owner, identity, sid);
    QueuesSpelledOut(a.Files(), owner, identity, sid);
    QueuesSpelledOut(b.Files(), owner, identity, sid);
  }

  lemma MeasurementAgrees(
    a: Disk, b: Disk, sid: NodeId, identity: SourceIdentity, m: NodeId, other: NodeId)
    requires a.storage.Present? && b.storage.Present? && SameBeyond(a, b, m) && SameBeyond(b, a, m) && other != m
    ensures InspectMeasurement(a.Files(), other, identity, sid) == InspectMeasurement(b.Files(), other, identity, sid)
  {
    SubtreesAgree(a, b, m, other);
    QueuesMatch(a, b, m, MeasurementOwner(other), identity, sid);
  }

  /** What the inspection lists for one measurement of a ready source. */
  lemma Listing(disk: Disk, sid: NodeId, declared: set<NodeId>, m: NodeId)
    requires disk.identity.Present? && disk.storage.Present?
    ensures
      var i, identity := Inspect(disk, sid, declared), disk.identity.value;
      var listed := m in declared || m in identity.measurements || m in ArtifactIds(disk.Files());
      && (m in i.measurements <==> i.source.ReadySource? && listed)
      && (m in i.measurements ==> i.measurements[m] == InspectMeasurement(disk.Files(), m, identity, sid))
  {
  }

  /**
    Damage is local: whatever happens inside one measurement's subtree, the gate's answers for the source and
    for every other measurement stay the same.
   */
  lemma DamageIsLocal(a: Disk, b: Disk, sid: NodeId, declared: set<NodeId>, m: NodeId, other: NodeId)
    requires a.storage.Present? && b.storage.Present? && SameBeyond(a, b, m) && other != m
    ensures
      var i, j := Inspect(a, sid, declared), Inspect(b, sid, declared);
      && i.source == j.source
      && (other in i.measurements <==> other in j.measurements)
      && (other in i.measurements ==> i.measurements[other] == j.measurements[other])
  {
    SourceAgrees(a, b, sid, declared, m, other);
    if a.identity.Present? {
      SubtreesAgree(a, b, m, other);
      MeasurementAgrees(a, b, sid, a.identity.value, m, other);
      Listing(a, sid, declared, other);
      Listing(b, sid, declared, other);
    }
  }
}
