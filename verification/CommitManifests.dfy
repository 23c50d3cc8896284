/** The normal-commit manifest contract: validation, the recovery gate, and what replay should reach. */
module CommitManifests {
  import opened Basics
  import opened Identifiers
  import opened Outbox
  import opened StoreTypes

  predicate DistinctFinals(ops: seq<Operation>) {
    forall i, j :: 0 <= i < j < |ops| ==> ops[i].final != ops[j].final
  }

  predicate DistinctStaged(ops: seq<Operation>) {
    forall i, j :: 0 <= i < j < |ops| && ops[i].Install? && ops[j].Install? ==> ops[i].staged != ops[j].staged
  }

  predicate InstallsAt(ops: seq<Operation>, path: Path) {
    exists i :: 0 <= i < |ops| && ops[i].Install? && ops[i].final == path
  }

  predicate EachValid(ops: seq<Operation>) {
    forall i :: 0 <= i < |ops| ==> ops[i].Valid()
  }

  /** The manifest contract, stated over positions instead of the accumulating sets of the source. */
  predicate Valid(m: CommitManifest) {
    && m.generation != 0
    && m.touched.Keys !! m.additions.Keys
    && (m.cause.DeliveryResult? ==> m.additions == map[])
    && (forall id :: id in m.additions ==> InstallsAt(m.entries, MeasurementStateFile(id)))
    && DistinctFinals(m.entries) && DistinctStaged(m.entries)
    && InstallsAt(m.entries, SourceStateFile)
    && (m.cause.Acquisition? ==> forall i :: 0 <= i < |m.entries| ==> m.entries[i].Install?)
    && EachValid(m.entries)
  }

  /** The validation loops: two growing path sets and one counter. */
  method ValidateEntries(entries: seq<Operation>) returns (ok: bool)
    ensures ok <==> DistinctFinals(entries) && DistinctStaged(entries) && InstallsAt(entries, SourceStateFile)
  {
    var finalPaths: set<Path>, stagedPaths: set<Path> := {}, {};
    var sourceStateInstalls := 0;
    for n := 0 to |entries|
      invariant finalPaths == set i | 0 <= i < n :: entries[i].final
      invariant stagedPaths == set i | 0 <= i < n && entries[i].Install? :: entries[i].staged
      invariant DistinctFinals(entries[..n]) && DistinctStaged(entries[..n])
      invariant sourceStateInstalls == 0 <==> !InstallsAt(entries[..n], SourceStateFile)
      invariant sourceStateInstalls >= 1 ==> sourceStateInstalls == 1 && SourceStateFile in finalPaths
      invariant 0 <= sourceStateInstalls
    {
      var entry := entries[n];
      if entry.final in finalPaths || (entry.Install? && entry.staged in stagedPaths) {
        return false;
      }
      finalPaths := finalPaths + {entry.final};
      if entry.Install? {
        stagedPaths := stagedPaths + {entry.staged};
        if entry.final == SourceStateFile {
          sourceStateInstalls := sourceStateInstalls + 1;
          assert entries[..n + 1][n] == entry;
        }
      }
      assert entries[..n + 1] == entries[..n] + [entry];
      assert InstallsAt(entries[..n + 1], SourceStateFile) <==>
             InstallsAt(entries[..n], SourceStateFile) || (entry.Install? && entry.final == SourceStateFile);
    }
    assert entries[..|entries|] == entries;
    return sourceStateInstalls == 1;
  }

  datatype Recovery = Apply | Unresolvable

  /** The lineage and adjacent-generation gate, `CommitManifest::recover_against`. */
  function RecoverAgainst(m: CommitManifest, identity: SourceIdentity, generation: nat): Recovery {
    if && m.sourceInstance == identity.instance
       && (forall id :: id in m.touched ==>
             id in identity.measurements && identity.measurements[id].instance == m.touched[id])
       && (forall id :: id in m.additions ==> id in identity.measurements ==>
             identity.measurements[id].instance == m.additions[id])
       && (m.generation == generation || m.generation == SaturatingSucc(generation))
    then Apply else Unresolvable
  }

  /** The identity once the manifest's additions are registered; known entries keep their own facts. */
  function Registered(identity: SourceIdentity, additions: map<NodeId, InstanceId>): SourceIdentity {
    identity.(measurements :=
      map id | id in identity.measurements.Keys + additions.Keys ::
        if id in identity.measurements then identity.measurements[id] else MeasurementIdentity(additions[id], 0))
  }

  /** `apply_identity_additions` refuses exactly a conflicting entry. */
  function ApplyAdditions(identity: SourceIdentity, additions: map<NodeId, InstanceId>): Result<SourceIdentity> {
    if forall id :: id in additions && id in identity.measurements ==>
      identity.measurements[id].instance == additions[id]
    then Ok(Registered(identity, additions)) else Err
  }

  // ---------------------------------------------------------------- the committed files

  /** The content a path ends with when `ops` are applied in order to a prior content. */
  function Settle(ops: seq<Operation>, path: Path, prior: Option<Doc>): Option<Doc> {
    if ops == [] then prior
    else if ops[|ops| - 1].final == path then ops[|ops| - 1].Effect()
    else Settle(ops[..|ops| - 1], path, prior)
  }

  function Finals(ops: seq<Operation>): set<Path> {
    set i | 0 <= i < |ops| :: ops[i].final
  }

  /** Every operation applied, staging gone: the state a durable manifest stands for. */
  function Committed(files: Files, ops: seq<Operation>): Files {
    map p | p in files.Keys + Finals(ops) && !p.StagedFile? && Settle(ops, p, Get(files, p)).Some?
      :: Settle(ops, p, Get(files, p)).value
  }

  lemma {:induction false} SettleUntouched(ops: seq<Operation>, path: Path, prior: Option<Doc>)
    requires path !in Finals(ops)
    ensures Settle(ops, path, prior) == prior
  {
    if ops != [] {
      var front := ops[..|ops| - 1];
      assert ops[|ops| - 1].final in Finals(ops);
      forall p | p in Finals(front) ensures p in Finals(ops) {
        var i :| 0 <= i < |front| && front[i].final == p;
        assert ops[i].final == p;
      }
      SettleUntouched(front, path, prior);
    }
  }

  lemma {:induction false} SettleTouched(ops: seq<Operation>, k: nat, prior: Option<Doc>)
    requires k < |ops| && DistinctFinals(ops)
    ensures Settle(ops, ops[k].final, prior) == ops[k].Effect()
  {
    if k < |ops| - 1 {
      SettleTouched(ops[..|ops| - 1], k, prior);
    }
  }

  lemma CommittedAt(files: Files, ops: seq<Operation>, path: Path)
    ensures Get(Committed(files, ops), path) ==
            if path.StagedFile? then None else Settle(ops, path, Get(files, path))
  {
    if path !in files.Keys + Finals(ops) {
      SettleUntouched(ops, path, None);
    }
  }

  /** The committed state only reads paths that no operation targets. */
  lemma CommittedDependsOnUntouched(a: Files, b: Files, ops: seq<Operation>)
    requires DistinctFinals(ops)
    requires forall p: Path :: !p.StagedFile? && p !in Finals(ops) ==> Get(a, p) == Get(b, p)
    ensures Committed(a, ops) == Committed(b, ops)
  {
    forall p ensures Get(Committed(a, ops), p) == Get(Committed(b, ops), p) {
      CommittedAt(a, ops, p);
      CommittedAt(b, ops, p);
      if p in Finals(ops) {
        var k :| 0 <= k < |ops| && ops[k].final == p;
        SettleTouched(ops, k, Get(a, p));
        SettleTouched(ops, k, Get(b, p));
      }
    }
    SameFiles(Committed(a, ops), Committed(b, ops));
  }

  /** Once every target holds its effect, the durable files are the committed state. */
  lemma SettledIsCommitted(files: Files, ops: seq<Operation>)
    requires DistinctFinals(ops)
    requires forall i :: 0 <= i < |ops| ==> Get(files, ops[i].final) == ops[i].Effect()
    ensures Durable(files) == Committed(files, ops)
  {
    forall p ensures Get(Durable(files), p) == Get(Committed(files, ops), p) {
      CommittedAt(files, ops, p);
      if p in Finals(ops) {
        var k :| 0 <= k < |ops| && ops[k].final == p;
        SettleTouched(ops, k, Get(files, p));
      } else {
        SettleUntouched(ops, p, Get(files, p));
      }
    }
    SameFiles(Durable(files), Committed(files, ops));
  }
}
