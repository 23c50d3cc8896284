/** The book of one lineage: what was admitted, what was acknowledged, and that the disk agrees. */
module Ledger {
  import opened Basics
  import opened Identifiers
  import opened Outbox
  import opened Delivery
  import opened StoreTypes
  import opened Lineage
  import opened Recovery
  import opened Operations
  import opened Acquisition
  import opened Resets
  import opened Stuck
  import opened Runs
  import opened Conservation

  /** Every key admitted so far in this lineage, and those of them acknowledged since. */
  datatype Book = Book(admitted: set<Ref>, acked: set<Ref>)

  /** The book and the queues agree on a key: a pending record is open, a letter is booked, an open key is queued. */
  predicate Agrees(book: Book, files: Files, ref: Ref) {
    && (ref in book.acked ==> ref in book.admitted)
    && (HasRecord(files, ref) ==> ref in book.admitted - book.acked)
    && (HasLetter(files, ref) ==> ref in book.admitted)
    && (ref in book.admitted - book.acked ==> Queued(files, ref))
  }

  /** The key is in at most one place: acknowledged and gone, pending, or dead-lettered. */
  predicate InOnePlace(book: Book, files: Files, ref: Ref) {
    !(HasRecord(files, ref) && HasLetter(files, ref)) && (ref in book.acked ==> !Queued(files, ref))
  }

  /** What a source stands for: its goal, or, when it is stuck, what its files say. */
  ghost function Standing(disk: Disk, sid: NodeId): Files {
    if Recoverable(disk, sid) then FilesOf(Goal(disk, sid)) else FilesOf(disk)
  }

  /** How one operation moves the book: only what it committed counts. */
  ghost function Post(book: Book, disk: Disk, sid: NodeId, action: Action, fault: Fault): Book {
    var next := Perform(disk, sid, action, fault).disk;
    if !Recoverable(disk, sid) || !Recoverable(next, sid) || Goal(next, sid) == Goal(disk, sid) then book
    else match action
      case Enter => book
      case Acquire(plan) => PostCycle(book, CycleStart(disk, sid, plan, fault), sid, plan, Goal(next, sid))
      case Deliver(owner, key, facts, _) => PostAttempt(book, owner, key, facts)
      case ResetAll(_) => Book({}, {})
      case ResetOne(m, _) => Forget(book, m)
  }

  function PostAttempt(book: Book, owner: Owner, key: RecordKey, facts: AttemptFacts): Book {
    if facts.failure.None? then book.(acked := book.acked + {Ref(owner, key)}) else book
  }

  function PostCycle(book: Book, start: Run, sid: NodeId, plan: Plan, goal: Disk): Book {
    if CommitsContent(start, sid, plan, goal)
    then Admit(book, Refs(ContentWrites(start.disk, ContentOf(start.disk, sid, plan))))
    else book
  }

  /** Admission opens a key again even if it was acknowledged before. */
  function Admit(book: Book, refs: set<Ref>): Book {
    Book(book.admitted + refs, book.acked - refs)
  }

  function Forget(book: Book, m: NodeId): Book {
    Book(set r | r in book.admitted && r.owner != MeasurementOwner(m), set r | r in book.acked
      && r.owner != MeasurementOwner(m))
  }

  /** The cycle commits the admission of the key although its dead letter is stored. */
  ghost predicate Readmits(disk: Disk, sid: NodeId, action: Action, fault: Fault, ref: Ref) {
    action.Acquire? && Recoverable(disk, sid) && Recoverable(Perform(disk, sid, action, fault).disk, sid) &&
    var start := CycleStart(disk, sid, action.plan, fault);
    && CommitsContent(start, sid, action.plan, Goal(Perform(disk, sid, action, fault).disk, sid))
    && ref in Refs(ContentWrites(start.disk, ContentOf(start.disk, sid, action.plan)))
        && HasLetter(start.disk.Files(), ref)
  }

  // ---------------------------------------------------------------- one step

  /** The two halves of the book's invariant; the second is kept where the key is never readmitted. */
  predicate Booked(book: Book, files: Files, ref: Ref, single: bool) {
    Agrees(book, files, ref) && (single ==> InOnePlace(book, files, ref))
  }

  /** A delivery outcome moves its own key and no other. */
  lemma OutcomeQueues(files: Files, owner: Owner, key: RecordKey, next: SourceState, execution: Execution, ref: Ref)
    requires PendingFile(owner, key) in files
    ensures
      var after := OutcomeFiles(files, owner, key, next, execution);
      if ref == Ref(owner, key) then
        && (HasRecord(after, ref) <==> execution.Retry?)
        && (HasLetter(after, ref) <==> execution.Dead? || HasLetter(files, ref))
      else SameQueues(after, files, ref)
  {
  }

  lemma AttemptPosts(
    book: Book, disk: Disk, sid: NodeId, owner: Owner, key: RecordKey, facts: AttemptFacts, ref: Ref, single: bool)
    requires Quiet(disk, sid) && disk.storage.Present? && Booked(book, disk.Files(), ref, single)
    requires AttemptOf(disk, sid, owner, key, facts).Attempted?
    ensures
      var after := AttemptDisk(disk, owner, key, AttemptOf(disk, sid, owner, key, facts));
      Booked(PostAttempt(book, owner, key, facts), after.Files(), ref, single)
  {
    AttemptSound(disk, sid, owner, key, facts);
    var a := AttemptOf(disk, sid, owner, key, facts);
    OutcomeQueues(disk.Files(), owner, key, Advanced(a.state), a.execution, ref);
  }

  lemma SameBesideQueues(files: Files, after: Files, ref: Ref)
    requires SameBeside(files, after)
    ensures SameQueues(files, after, ref)
  {
    assert Get(after, PendingFile(ref.owner, ref.key)) == Get(files, PendingFile(ref.owner, ref.key));
    assert Get(after, DeadLetterFile(ref.owner, ref.key)) == Get(files, DeadLetterFile(ref.owner, ref.key));
  }

  /** A collision leaves both queues as the source stood for them. */
  lemma CollisionKeepsQueues(
    disk: Disk, sid: NodeId, owner: Owner, key: RecordKey, facts: AttemptFacts, token: nat, fault: Fault, ref: Ref)
    requires Recoverable(disk, sid) && DrainCollides(disk, sid, owner, key, facts, token, fault)
    ensures
      var next := Drain(disk, sid, owner, key, facts, token, fault).disk;
      StuckAt(next) && SameQueues(FilesOf(next), FilesOf(Goal(disk, sid)), ref)
  {
    DrainAtomic(disk, sid, owner, key, facts, token, fault);
    TurnEntryConverges(disk, sid, fault);
    var before := TurnEntry(disk, sid, fault).run.disk;
    QuietHolds(before, sid, ref);
    SameBesideQueues(before.Files(), Drain(disk, sid, owner, key, facts, token, fault).disk.Files(), ref);
  }

  /** A drain that did not collide committed its attempt, or nothing. */
  lemma DrainGoalPosts(
    book: Book, disk: Disk, sid: NodeId, owner: Owner, key: RecordKey, facts: AttemptFacts, token: nat, fault: Fault,
    ref: Ref, single: bool)
    requires Recoverable(disk, sid) && Booked(book, FilesOf(Goal(disk, sid)), ref, single)
    requires !DrainCollides(disk, sid, owner, key, facts, token, fault)
    ensures
      var next := Drain(disk, sid, owner, key, facts, token, fault).disk;
      && Recoverable(next, sid)
      && Booked(if Goal(next, sid) == Goal(disk, sid) then book
          else PostAttempt(book, owner, key, facts), FilesOf(Goal(next, sid)), ref, single)
  {
    var next := Drain(disk, sid, owner, key, facts, token, fault).disk;
    DrainAtomic(disk, sid, owner, key, facts, token, fault);
    if Goal(next, sid) != Goal(disk, sid) {
      TurnEntryConverges(disk, sid, fault);
      var before := TurnEntry(disk, sid, fault).run.disk;
      QuietHolds(before, sid, ref);
      AttemptPosts(book, before, sid, owner, key, facts, ref, single);
    }
  }

  lemma DeliverPosts(
    book: Book, disk: Disk, sid: NodeId, owner: Owner, key: RecordKey, facts: AttemptFacts, token: nat, fault: Fault,
    ref: Ref, single: bool)
    requires Recoverable(disk, sid) && Booked(book, Standing(disk, sid), ref, single)
    ensures
      var action := Deliver(owner, key, facts, token);
      Booked(Post(book, disk, sid, action, fault), Standing(Perform(disk, sid, action, fault).disk, sid), ref, single)
  {
    if DrainCollides(disk, sid, owner, key, facts, token, fault) {
      CollisionKeepsQueues(disk, sid, owner, key, facts, token, fault, ref);
      StuckIsNotRecoverable(Drain(disk, sid, owner, key, facts, token, fault).disk, sid);
    } else {
      DrainGoalPosts(book, disk, sid, owner, key, facts, token, fault, ref, single);
    }
  }

  /** Without an identity nothing is queued, before and after initialisation. */
  lemma FreshBooked(book: Book, disk: Disk, sid: NodeId, minted: InstanceId, ref: Ref, single: bool)
    requires Recoverable(disk, sid) && Goal(disk, sid).identity.Absent?
      && Booked(book, FilesOf(Goal(disk, sid)), ref, single)
    ensures Booked(book, FilesOf(FreshDisk(minted)), ref, single)
  {
    GoalIsQuiet(disk, sid);
  }

  lemma ContentPosts(book: Book, disk: Disk, sid: NodeId, plan: Plan, ref: Ref, single: bool)
    requires Quiet(disk, sid) && disk.storage.Present? && DistinctIds(plan.measurements)
      && Booked(book, disk.Files(), ref, single)
    requires ContentOf(disk, sid, plan).Content?
    requires single ==> !(ref in Refs(ContentWrites(disk, ContentOf(disk, sid, plan))) && HasLetter(disk.Files(), ref))
    ensures
      var c := ContentOf(disk, sid, plan);
      && disk.identity.Present?
      && Booked(Admit(book, Refs(ContentWrites(disk, c))), ContentDisk(disk, c).Files(), ref, single)
  {
    var c := ContentOf(disk, sid, plan);
    ContentSound(disk, sid, plan);
    ContentHolds(disk, sid, c.state, c.planned, IdsOf(plan.measurements), c.next, ContentWrites(disk, c), ref);
  }

  /** The cycle starts from the old state or from the fresh one, and the book agrees with either. */
  lemma StartBooked(book: Book, disk: Disk, sid: NodeId, plan: Plan, fault: Fault, ref: Ref, single: bool)
    requires Recoverable(disk, sid) && Booked(book, FilesOf(Goal(disk, sid)), ref, single)
    ensures
      var start := CycleStart(disk, sid, plan, fault);
      start.outcome.Done? ==>
        && Quiet(start.disk, sid)
        && start.disk.storage.Present?
        && Booked(book, start.disk.Files(), ref, single)
  {
    StartConverges(disk, sid, plan, fault);
    var start := CycleStart(disk, sid, plan, fault);
    if start.outcome.Done? {
      QuietHolds(start.disk, sid, ref);
      if Goal(disk, sid).identity.Absent? {
        FreshBooked(book, disk, sid, plan.minted, ref, single);
      }
    }
  }

  lemma CyclePosts(book: Book, start: Run, sid: NodeId, plan: Plan, goal: Disk, ref: Ref, single: bool)
    requires DistinctIds(plan.measurements) && CommitsContent(start, sid, plan, goal)
    requires Quiet(start.disk, sid) && Booked(book, start.disk.Files(), ref, single)
    requires single ==>
               !(ref in Refs(ContentWrites(start.disk, ContentOf(start.disk, sid, plan)))
                 && HasLetter(start.disk.Files(), ref))
    ensures Booked(PostCycle(book, start, sid, plan, goal), FilesOf(goal), ref, single)
  {
    ContentPosts(book, start.disk, sid, plan, ref, single);
  }

  lemma AcquirePosts(book: Book, disk: Disk, sid: NodeId, plan: Plan, fault: Fault, ref: Ref, single: bool)
    requires Recoverable(disk, sid) && Booked(book, FilesOf(Goal(disk, sid)), ref, single)
      && DistinctIds(plan.measurements)
    requires single ==> !Readmits(disk, sid, Acquire(plan), fault, ref)
    ensures
      var start, next := CycleStart(disk, sid, plan, fault), Measure(disk, sid, plan, fault).disk;
      && Recoverable(next, sid)
      && Booked(if Goal(next, sid) == Goal(disk, sid) then book
          else PostCycle(book, start, sid, plan, Goal(next, sid)), FilesOf(Goal(next, sid)), ref, single)
  {
    AcquireCases(disk, sid, plan, fault);
    StartBooked(book, disk, sid, plan, fault, ref, single);
    var start, goal := CycleStart(disk, sid, plan, fault), Goal(Measure(disk, sid, plan, fault).disk, sid);
    if CommitsContent(start, sid, plan, goal) {
      CyclePosts(book, start, sid, plan, goal, ref, single);
    } else if Goal(disk, sid).identity.Absent? {
      FreshBooked(book, disk, sid, plan.minted, ref, single);
    }
  }

  /** A readmission puts the key in two places: the condition on readmission cannot be dropped. */
  lemma ReadmissionDoubles(disk: Disk, sid: NodeId, plan: Plan, fault: Fault, ref: Ref)
    requires DistinctIds(plan.measurements) && Readmits(disk, sid, Acquire(plan), fault, ref)
    ensures
      var after := Standing(Measure(disk, sid, plan, fault).disk, sid);
      HasRecord(after, ref) && HasLetter(after, ref)
  {
    QuietAfterStart(disk, sid, plan, fault);
    var start := CycleStart(disk, sid, plan, fault);
    var c := ContentOf(start.disk, sid, plan);
    ContentSound(start.disk, sid, plan);
    ContentHolds(start.disk, sid, c.state, c.planned, IdsOf(plan.measurements), c.next, ContentWrites(start.disk, c),
      ref);
  }

  lemma QuietAfterStart(disk: Disk, sid: NodeId, plan: Plan, fault: Fault)
    requires Recoverable(disk, sid) && CycleStart(disk, sid, plan, fault).outcome.Done?
    ensures Quiet(CycleStart(disk, sid, plan, fault).disk, sid)
  {
    StartConverges(disk, sid, plan, fault);
  }

  /** An effective measurement reset committed the reset of a quiet, recovered disk. */
  lemma ResetOneCases(disk: Disk, next: Disk, sid: NodeId, m: NodeId, minted: InstanceId, fault: Fault)
    requires Recoverable(disk, sid) && next == ResetMeasurement(disk, sid, m, minted, fault).disk
    ensures
      var before := TurnEntry(disk, sid, fault).run.disk;
      && Recoverable(next, sid)
      && (Goal(next, sid) != Goal(disk, sid) ==>
            && Quiet(before, sid) && Goal(before, sid) == Goal(disk, sid)
            && before.identity.Present? && before.storage.Present?
            && MeasurementResetDisk(before, m, minted) == Some(Goal(next, sid)))
  {
    MeasurementResetAtomic(disk, sid, m, minted, fault);
    TurnEntryConverges(disk, sid, fault);
  }

  lemma ResetPosts(book: Book, disk: Disk, sid: NodeId, m: NodeId, minted: InstanceId, ref: Ref, single: bool)
    requires Quiet(disk, sid) && disk.identity.Present? && disk.storage.Present?
      && Booked(book, disk.Files(), ref, single)
    requires MeasurementResetDisk(disk, m, minted).Some?
    ensures Booked(Forget(book, m), FilesOf(MeasurementResetDisk(disk, m, minted).value), ref, single)
  {
    ResetDrops(disk.Files(), m, ResetIdentity(disk.identity.value, m, minted).value, ref);
  }

  lemma ResetGoalPosts(
    book: Book, disk: Disk, sid: NodeId, m: NodeId, minted: InstanceId, fault: Fault, ref: Ref, single: bool)
    requires Recoverable(disk, sid) && Booked(book, FilesOf(Goal(disk, sid)), ref, single)
    ensures
      var next := ResetMeasurement(disk, sid, m, minted, fault).disk;
      && Recoverable(next, sid)
      && Booked(if Goal(next, sid) == Goal(disk, sid) then book
          else Forget(book, m), FilesOf(Goal(next, sid)), ref, single)
  {
    var next := ResetMeasurement(disk, sid, m, minted, fault).disk;
    ResetOneCases(disk, next, sid, m, minted, fault);
    if Goal(next, sid) != Goal(disk, sid) {
      var before := TurnEntry(disk, sid, fault).run.disk;
      QuietHolds(before, sid, ref);
      ResetPosts(book, before, sid, m, minted, ref, single);
    }
  }

  lemma PostReset(book: Book, disk: Disk, sid: NodeId, m: NodeId, minted: InstanceId, fault: Fault)
    ensures
      var next := ResetMeasurement(disk, sid, m, minted, fault).disk;
      && Perform(disk, sid, ResetOne(m, minted), fault).disk == next
      && Post(book, disk, sid, ResetOne(m, minted), fault) ==
         if !Recoverable(disk, sid) || !Recoverable(next, sid) || Goal(next, sid) == Goal(disk, sid) then book
           else Forget(book, m)
  {
  }

  lemma ResetOnePosts(
    book: Book, disk: Disk, sid: NodeId, m: NodeId, minted: InstanceId, fault: Fault, ref: Ref, single: bool)
    requires Recoverable(disk, sid) && Booked(book, Standing(disk, sid), ref, single)
    ensures
      var action := ResetOne(m, minted);
      Booked(Post(book, disk, sid, action, fault), Standing(Perform(disk, sid, action, fault).disk, sid), ref, single)
  {
    ResetGoalPosts(book, disk, sid, m, minted, fault, ref, single);
    PostReset(book, disk, sid, m, minted, fault);
  }

  lemma StuckPosts(book: Book, disk: Disk, sid: NodeId, action: Action, fault: Fault, ref: Ref, single: bool)
    requires StuckAt(disk) && !action.ResetAll? && Booked(book, Standing(disk, sid), ref, single)
    ensures Booked(Post(book, disk, sid, action, fault), Standing(Perform(disk, sid, action, fault).disk, sid), ref,
      single)
  {
    StuckStep(disk, sid, action, fault);
    var next := Perform(disk, sid, action, fault).disk;
    StuckIsNotRecoverable(disk, sid);
    StuckIsNotRecoverable(next, sid);
    SameBesideQueues(disk.Files(), next.Files(), ref);
  }

  // ---------------------------------------------------------------- whole runs of one lineage

  /** Whatever one operation did, and wherever it was cut, the book still agrees with what the source stands for. */
  lemma StepBooks(book: Book, disk: Disk, sid: NodeId, action: Action, fault: Fault, ref: Ref, single: bool)
    requires Recoverable(disk, sid) || StuckAt(disk)
    requires Proper(action) && !action.ResetAll? && Booked(book, Standing(disk, sid), ref, single)
    requires single ==> !Readmits(disk, sid, action, fault, ref)
    ensures Booked(Post(book, disk, sid, action, fault), Standing(Perform(disk, sid, action, fault).disk, sid), ref,
      single)
  {
    if StuckAt(disk) {
      StuckPosts(book, disk, sid, action, fault, ref, single);
    } else {
      match action {
        case Enter => TurnEntryConverges(disk, sid, fault);
        case Acquire(plan) => AcquirePosts(book, disk, sid, plan, fault, ref, single);
        case Deliver(owner, key, facts, token) =>
          DeliverPosts(book, disk, sid, owner, key, facts, token, fault, ref, single);
        case ResetOne(m, minted) => ResetOnePosts(book, disk, sid, m, minted, fault, ref, single);
      }
    }
  }

  /** The phases of one lineage. */
  lemma StepKeepsLineage(disk: Disk, sid: NodeId, action: Action, fault: Fault)
    requires Recoverable(disk, sid) || StuckAt(disk)
    requires Proper(action) && !action.ResetAll?
    ensures var next := Perform(disk, sid, action, fault).disk; Recoverable(next, sid) || StuckAt(next)
  {
    if StuckAt(disk) {
      StuckStep(disk, sid, action, fault);
    } else {
      StepKeepsRecoverable(disk, sid, action, fault);
    }
  }

  /** The book after a run. */
  ghost function BookAfter(book: Book, disk: Disk, sid: NodeId, steps: seq<(Action, Fault)>): Book
    decreases |steps|
  {
    if steps == [] then book
    else BookAfter(Post(book, disk, sid, steps[0].0, steps[0].1), Perform(disk, sid, steps[0].0, steps[0].1).disk, sid,
      steps[1..])
  }

  /** No cycle of the run admits the key while its dead letter is stored. */
  ghost predicate NeverReadmits(disk: Disk, sid: NodeId, steps: seq<(Action, Fault)>, ref: Ref)
    decreases |steps|
  {
    steps == [] ||
    (!Readmits(disk, sid, steps[0].0, steps[0].1, ref)
      && NeverReadmits(Perform(disk, sid, steps[0].0, steps[0].1).disk, sid, steps[1..], ref))
  }

  lemma {:induction false} RunBooks(
    book: Book, disk: Disk, sid: NodeId, steps: seq<(Action, Fault)>, ref: Ref, single: bool)
    requires Recoverable(disk, sid) || StuckAt(disk)
    requires Booked(book, Standing(disk, sid), ref, single) && AllProper(steps) && OneLineage(steps)
    requires single ==> NeverReadmits(disk, sid, steps, ref)
    ensures
      var after := AfterAll(disk, sid, steps);
      (Recoverable(after, sid) || StuckAt(after))
        && Booked(BookAfter(book, disk, sid, steps), Standing(after, sid), ref, single)
    decreases |steps|
  {
    if steps != [] {
      StepBooks(book, disk, sid, steps[0].0, steps[0].1, ref, single);
      StepKeepsLineage(disk, sid, steps[0].0, steps[0].1);
      RunBooks(Post(book, disk, sid, steps[0].0, steps[0].1), Perform(disk, sid, steps[0].0, steps[0].1).disk, sid,
        steps[1..], ref, single);
    }
  }

  /** The book of a run of one lineage from a new source. */
  ghost function BookOf(sid: NodeId, steps: seq<(Action, Fault)>): Book {
    BookAfter(Book({}, {}), NewSource, sid, steps)
  }

  /** An uninterrupted turn entry shows what the source stands for. */
  lemma TurnShowsStanding(disk: Disk, sid: NodeId, fault: Fault, ref: Ref)
    requires Recoverable(disk, sid) || StuckAt(disk)
    requires TurnEntry(disk, sid, fault).run.outcome.Done?
    ensures SameQueues(FilesOf(TurnEntry(disk, sid, fault).run.disk), Standing(disk, sid), ref)
  {
    var after := TurnEntry(disk, sid, fault).run.disk;
    if StuckAt(disk) {
      StuckTurnEntry(disk, sid, fault);
      StuckIsNotRecoverable(disk, sid);
      SameBesideQueues(disk.Files(), after.Files(), ref);
    } else {
      TurnEntryConverges(disk, sid, fault);
      QuietHolds(after, sid, ref);
    }
  }

  /**
    Record conservation over every run of one lineage, cut anywhere and stuck or not: after an
    uninterrupted turn entry each pending record is admitted and open, each dead letter is of an admitted
    key, and each open key is in a queue. A key that was never readmitted over its dead letter is in
    exactly one place: acknowledged, pending or dead-lettered.
   */
  lemma RecordConservation(sid: NodeId, steps: seq<(Action, Fault)>, fault: Fault, ref: Ref)
    requires AllProper(steps) && OneLineage(steps)
    ensures
      var turn := TurnEntry(AfterAll(NewSource, sid, steps), sid, fault);
      turn.run.outcome.Done? ==>
        && Agrees(BookOf(sid, steps), FilesOf(turn.run.disk), ref)
        && (NeverReadmits(NewSource, sid, steps, ref) ==> InOnePlace(BookOf(sid, steps), FilesOf(turn.run.disk), ref))
  {
    var single := NeverReadmits(NewSource, sid, steps, ref);
    var disk := AfterAll(NewSource, sid, steps);
    assert Quiet(NewSource, sid);
    RunBooks(Book({}, {}), NewSource, sid, steps, ref, single);
    if TurnEntry(disk, sid, fault).run.outcome.Done? {
      TurnShowsStanding(disk, sid, fault, ref);
    }
  }

  /**
    No crash point loses a record. At the end of every run of one lineage, wherever its last step was cut,
    an admitted and unacknowledged key is in one of the two queues on the disk itself, or the durable
    commit manifest still installs its record from a staged file that is there.
   */
  lemma UnacknowledgedNeverLost(sid: NodeId, steps: seq<(Action, Fault)>, ref: Ref)
    requires AllProper(steps) && OneLineage(steps)
    ensures
      var disk := AfterAll(NewSource, sid, steps);
      ref in BookOf(sid, steps).admitted - BookOf(sid, steps).acked ==>
        Queued(FilesOf(disk), ref) || Arriving(disk, ref)
  {
    var disk := AfterAll(NewSource, sid, steps);
    assert Quiet(NewSource, sid);
    RunBooks(Book({}, {}), NewSource, sid, steps, ref, false);
    if ref in BookOf(sid, steps).admitted - BookOf(sid, steps).acked && Recoverable(disk, sid) {
      GoalIsQueuedOrArriving(disk, sid, ref);
    }
  }

  // ---------------------------------------------------------------- once queued

  /** One operation, cut anywhere, leaves on disk every record that the source still stands for. */
  lemma StepHolds(disk: Disk, sid: NodeId, action: Action, fault: Fault, ref: Ref)
    requires Recoverable(disk, sid) && Proper(action) && !action.ResetAll?
    requires Queued(FilesOf(disk), ref) && Queued(FilesOf(Goal(disk, sid)), ref)
    requires Queued(Standing(Perform(disk, sid, action, fault).disk, sid), ref)
    ensures Queued(FilesOf(Perform(disk, sid, action, fault).disk), ref)
  {
    if Recoverable(Perform(disk, sid, action, fault).disk, sid) {
      match action {
        case Enter => TurnEntryHolds(disk, sid, fault, ref);
        case Acquire(plan) => MeasureHolds(disk, sid, plan, fault, ref);
        case Deliver(owner, key, facts, token) => DrainHolds(disk, sid, owner, key, facts, token, fault, ref);
        case ResetOne(m, minted) => ResetHolds(disk, sid, m, minted, fault, ref);
      }
    }
  }

  lemma ResetHolds(disk: Disk, sid: NodeId, m: NodeId, minted: InstanceId, fault: Fault, ref: Ref)
    requires Recoverable(disk, sid) && Queued(FilesOf(disk), ref) && Queued(FilesOf(Goal(disk, sid)), ref)
    requires Recoverable(ResetMeasurement(disk, sid, m, minted, fault).disk, sid)
    requires Queued(FilesOf(Goal(ResetMeasurement(disk, sid, m, minted, fault).disk, sid)), ref)
    ensures Queued(FilesOf(ResetMeasurement(disk, sid, m, minted, fault).disk), ref)
  {
    if ref.owner != MeasurementOwner(m) {
      MeasurementResetHolds(disk, sid, m, minted, fault, ref);
    } else {
      ResetOfOwner(disk, sid, m, minted, fault, ref);
    }
  }

  /** A reset that still stands for the old store has not touched the reset emitter's own records. */
  lemma ResetOfOwner(disk: Disk, sid: NodeId, m: NodeId, minted: InstanceId, fault: Fault, ref: Ref)
    requires Recoverable(disk, sid) && Queued(FilesOf(disk), ref) && Queued(FilesOf(Goal(disk, sid)), ref)
    requires ref.owner == MeasurementOwner(m)
    requires Recoverable(ResetMeasurement(disk, sid, m, minted, fault).disk, sid)
    requires Queued(FilesOf(Goal(ResetMeasurement(disk, sid, m, minted, fault).disk, sid)), ref)
    ensures Queued(FilesOf(ResetMeasurement(disk, sid, m, minted, fault).disk), ref)
  {
    TurnEntryConverges(disk, sid, fault);
    TurnEntryHolds(disk, sid, fault, ref);
    var turn := TurnEntry(disk, sid, fault);
    if turn.run.outcome.Done? && turn.run.disk.identity.Present?
      && ResetIdentity(turn.run.disk.identity.value, m, minted).Ok? {
      ResetUndone(turn.run.disk, sid, m, minted, turn.run.fault, ref);
    }
  }

  lemma ResetUndone(disk: Disk, sid: NodeId, m: NodeId, minted: InstanceId, fault: Fault, ref: Ref)
    requires Quiet(disk, sid) && disk.identity.Present? && disk.storage.Present? && Queued(FilesOf(disk), ref)
    requires ref.owner == MeasurementOwner(m) && ResetIdentity(disk.identity.value, m, minted).Ok?
    requires
      var r := ApplyTransition(disk, sid,
        ResetManifest(sid, m, disk.identity.value, ResetIdentity(disk.identity.value, m, minted).value), fault);
      Recoverable(r.disk, sid) && Queued(FilesOf(Goal(r.disk, sid)), ref)
    ensures
      var r := ApplyTransition(disk, sid,
        ResetManifest(sid, m, disk.identity.value, ResetIdentity(disk.identity.value, m, minted).value), fault);
      Queued(FilesOf(r.disk), ref)
  {
    var identity := disk.identity.value;
    var target := ResetIdentity(identity, m, minted).value;
    if ValidReset(m, identity, target) {
      ResetFilesSound(disk.Files(), identity, target, m, sid);
      TransitionAtomic(disk, sid, ResetManifest(sid, m, identity, target), fault);
      ResetDrops(disk.Files(), m, target, ref);
    }
  }

  /** The key stays admitted and unacknowledged over the whole run. */
  ghost predicate OpenThroughout(book: Book, disk: Disk, sid: NodeId, steps: seq<(Action, Fault)>, ref: Ref)
    decreases |steps|
  {
    && ref in book.admitted - book.acked
    && (steps == [] || OpenThroughout(
          Post(book, disk, sid, steps[0].0, steps[0].1), Perform(disk, sid, steps[0].0, steps[0].1).disk, sid,
            steps[1..], ref))
  }

  /**
    Once its record is in a queue, an open key is in a queue at every later crash point: only between a
    manifest write and the replayed install of a new record can it be elsewhere.
   */
  lemma {:induction false} QueuedStaysQueued(book: Book, disk: Disk, sid: NodeId, steps: seq<(Action, Fault)>, ref: Ref)
    requires Recoverable(disk, sid) || StuckAt(disk)
    requires Agrees(book, Standing(disk, sid), ref) && AllProper(steps) && OneLineage(steps)
    requires OpenThroughout(book, disk, sid, steps, ref) && Queued(FilesOf(disk), ref)
    ensures Queued(FilesOf(AfterAll(disk, sid, steps)), ref)
    decreases |steps|
  {
    if steps != [] {
      var action, fault := steps[0].0, steps[0].1;
      var posted, next := Post(book, disk, sid, action, fault), Perform(disk, sid, action, fault).disk;
      StepBooks(book, disk, sid, action, fault, ref, false);
      StepKeepsLineage(disk, sid, action, fault);
      if StuckAt(disk) {
        StuckStep(disk, sid, action, fault);
        SameBesideQueues(disk.Files(), next.Files(), ref);
      } else {
        StepHolds(disk, sid, action, fault, ref);
      }
      QueuedStaysQueued(posted, next, sid, steps[1..], ref);
    }
  }
}
