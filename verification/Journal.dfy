/** The redo journal that makes two files change as one (headless/src/storage.rs):
  * profiles.json, secrets.json and .profile-transaction.json, with the backups taken
  * before a document of the old schema is replaced.
  *
  * Every replacement of a file is one atomic step. Before each step the environment
  * decides its fate, so that a crash or an input/output error can strike anywhere.
  */
module Journal {
  import opened Wrappers
  import opened EngineConfig

  type Id = string
  type Catalog = map<Id, Profile>
  type Secrets = map<Id, string>

  const MAX_PROFILE_BYTES: nat := 16 * 1024 * 1024
  const MAX_PROFILES := 4096

  /** What a reader is given. */
  datatype Pair = Pair(profiles: Catalog, secrets: Secrets)

  /** profiles.json: a document of the present schema, or the bare array of the old one. */
  datatype Document = Document(profiles: Catalog, legacy: bool)

  /** A transaction with the length of its text: of the profile document alone, and of the
    * journal with the secrets.
    */
  datatype Commit = Commit(pair: Pair, documentBytes: nat, journalBytes: nat)

  datatype Disk = Disk(
    document: Option<Document>, secrets: Option<Secrets>, journal: Option<Commit>,
    pairBackup: Option<Pair>, arrayBackup: Option<Catalog>)

  datatype Fate =
    | Goes
    | FailsUndone
    | FailsDone   // an error is reported although the change is visible
    | Dies        // the process ends before the step

  datatype Outcome = Done | Refused | Crashed

  // ---- what the files mean

  function ShownProfiles(document: Option<Document>): Catalog {
    if document.Some? then document.value.profiles else map[]
  }

  function ShownSecrets(secrets: Option<Secrets>): Secrets {
    if secrets.Some? then secrets.value else map[]
  }

  /** What the two files show. */
  function Shown(d: Disk): Pair {
    Pair(ShownProfiles(d.document), ShownSecrets(d.secrets))
  }

  /** The last transaction whose journal reached the disk. */
  function InForce(d: Disk): Pair {
    match d.journal
    case Some(commit) => commit.pair
    case None => Shown(d)
  }

  /** The checks of repository::encode before the journal is written. */
  predicate Encodes(commit: Commit) {
    |commit.pair.profiles| <= MAX_PROFILES && commit.documentBytes <= MAX_PROFILE_BYTES
  }

  /** The checks of recover_transaction before it replaces a file. */
  predicate Replayable(commit: Commit) {
    && commit.journalBytes <= MAX_PROFILE_BYTES
    && |commit.pair.profiles| <= MAX_PROFILES
    && (forall id :: id in commit.pair.profiles ==> ValidProfile(commit.pair.profiles[id]))
    && (forall id :: id in commit.pair.secrets ==> id in commit.pair.profiles && ValidPassword(commit.pair.secrets[id]))
    && commit.documentBytes <= MAX_PROFILE_BYTES
  }

  /** A transaction is pending that fails the checks. */
  predicate Blocked(d: Disk) {
    d.journal.Some? && !Replayable(d.journal.value)
  }

  /** The backup pair and, while a transaction is pending and its profiles have not been
    * replaced, the two files are transactions known before.
    */
  predicate Consistent(d: Disk, known: set<Pair>) {
    && InForce(d) in known
    && (d.pairBackup.Some? ==> d.pairBackup.value in known)
    && (d.journal.Some? ==>
          Shown(d) in known || d.document == Some(Document(d.journal.value.pair.profiles, false)))
  }

  // ---- the class

  class Storage {
    var document: Option<Document>
    var secrets: Option<Secrets>
    var journal: Option<Commit>
    var pairBackup: Option<Pair>
    var arrayBackup: Option<Catalog>
    /** What befalls the coming file changes; past the end all of them go through. */
    var fates: seq<Fate>

    constructor (d: Disk)
      ensures Now() == d && fates == []
    {
      document, secrets, journal, pairBackup, arrayBackup :=
        d.document, d.secrets, d.journal, d.pairBackup, d.arrayBackup;
      fates := [];
    }

    function Now(): Disk
      reads this
    {
      Disk(document, secrets, journal, pairBackup, arrayBackup)
    }

    /** Whether the next change happens, and what its caller learns. */
    method NextFate() returns (happens: bool, o: Outcome)
      modifies `fates
      ensures o.Done? ==> happens
      ensures old(fates) == [] ==> o.Done? && fates == []
    {
      if fates == [] {
        return true, Done;
      }
      var f := fates[0];
      fates := fates[1..];
      happens := f == Goes || f == FailsDone;
      o := if f == Goes then Done else if f == Dies then Crashed else Refused;
    }

    /** backup_legacy_metadata. */
    method BackupLegacy() returns (o: Outcome)
      modifies `pairBackup, `arrayBackup, `fates
      ensures pairBackup == old(pairBackup) ||
              (old(pairBackup).None? && document.Some? && document.value.legacy
               && pairBackup == Some(Shown(old(Now()))))
      ensures arrayBackup == old(arrayBackup) ||
              (old(arrayBackup).None? && document.Some? && document.value.legacy
               && arrayBackup == Some(document.value.profiles))
      ensures o.Done? && document.Some? && document.value.legacy ==> pairBackup.Some? && arrayBackup.Some?
      ensures old(fates) == [] ==> o.Done? && fates == []
    {
      if document.None? || !document.value.legacy {
        return Done;
      }
      var happens;
      if pairBackup.None? {
        happens, o := NextFate();
        if happens {
          pairBackup := Some(Pair(document.value.profiles, ShownSecrets(secrets)));
        }
        if !o.Done? {
          return;
        }
      }
      if arrayBackup.None? {
        happens, o := NextFate();
        if happens {
          arrayBackup := Some(document.value.profiles);
        }
        return;
      }
      o := Done;
    }

    /** recover_transaction. A pending transaction that passes the checks is carried out as
      * far as the environment lets it, and what is in force never changes; one that fails
      * the checks blocks every reader and writer, whatever the environment does.
      */
    method RecoverTransaction() returns (o: Outcome)
      modifies this
      ensures InForce(Now()) == InForce(old(Now()))
      ensures forall known :: Consistent(old(Now()), known) ==> Consistent(Now(), known)
      ensures o.Done? ==> journal.None?
      ensures Blocked(old(Now())) ==> o.Refused? && Now() == old(Now())
      ensures old(journal).None? ==> o.Done? && Now() == old(Now())
      ensures old(fates) == [] && !Blocked(old(Now())) ==> o.Done? && fates == []
    {
      if journal.None? {
        return Done;
      }
      var pending := journal.value;
      if !Replayable(pending) {
        return Refused;
      }
      hide Replayable;
      o := BackupLegacy();
      if !o.Done? {
        return;
      }
      var happens;
      happens, o := NextFate();
      if happens {
        document := Some(Document(pending.pair.profiles, false));
      }
      if !o.Done? {
        return;
      }
      happens, o := NextFate();
      if happens {
        secrets := Some(pending.pair.secrets);
      }
      if !o.Done? {
        return;
      }
      happens, o := NextFate();
      if happens {
        journal := None;
      }
    }

    /** commit_profiles, under the lock and after a recovery: the journal is the commit
      * point. Without a failure outside, the transaction completes exactly when it passes
      * both sets of checks; one that only passes the first is left pending and blocks
      * every later access.
      */
    method CommitProfiles(commit: Commit) returns (o: Outcome)
      requires journal.None?
      modifies this
      ensures InForce(Now()) == InForce(old(Now())) || (Encodes(commit) && InForce(Now()) == commit.pair)
      ensures forall known :: Consistent(old(Now()), known) ==> Consistent(Now(), known + {commit.pair})
      ensures o.Done? ==> journal.None? && InForce(Now()) == commit.pair
      ensures old(fates) == [] ==>
        && (o.Done? <==> Encodes(commit) && Replayable(commit))
        && (!Encodes(commit) ==> InForce(Now()) == InForce(old(Now())) && journal.None?)
        && (Encodes(commit) && !Replayable(commit) ==> o.Refused? && journal == Some(commit))
    {
      hide Replayable;
      o := BackupLegacy();
      if !o.Done? {
        return;
      }
      if !Encodes(commit) {
        return Refused;
      }
      var happens;
      happens, o := NextFate();
      if happens {
        journal := Some(commit);
      }
      if !o.Done? {
        return;
      }
      o := RecoverTransaction();
    }

    /** Any reader: transaction_lock, then the two files. */
    method Read() returns (o: Outcome, seen: Pair)
      modifies this
      ensures o.Done? ==> seen == InForce(old(Now()))
      ensures InForce(Now()) == InForce(old(Now()))
      ensures forall known :: Consistent(old(Now()), known) ==> Consistent(Now(), known)
      ensures Blocked(old(Now())) ==> o.Refused? && Now() == old(Now())
      ensures old(fates) == [] ==> (o.Done? <==> !Blocked(old(Now())))
    {
      hide Replayable, Consistent;
      o := RecoverTransaction();
      seen := Shown(Now());
    }

    /** A writer: transaction_lock, then commit_profiles. */
    method Save(commit: Commit) returns (o: Outcome)
      modifies this
      ensures InForce(Now()) == InForce(old(Now())) || InForce(Now()) == commit.pair
      ensures forall known :: Consistent(old(Now()), known) ==> Consistent(Now(), known + {commit.pair})
      ensures o.Done? ==> journal.None? && InForce(Now()) == commit.pair
      ensures Blocked(old(Now())) ==> o.Refused? && Now() == old(Now())
    {
      hide Replayable, Encodes;
      o := RecoverTransaction();
      ghost var between := Now();
      assert forall known :: Consistent(between, known) ==> Consistent(between, known + {commit.pair});
      hide Consistent;
      if o.Done? {
        o := CommitProfiles(commit);
      }
    }

    /** prepare_legacy_rollback: the same profiles as a bare array. idle: no attempt is
      * recorded. The private copy it writes first is not modelled, but its failure is.
      */
    method PrepareLegacyRollback(idle: bool) returns (o: Outcome)
      modifies this
      ensures InForce(Now()) == InForce(old(Now()))
      ensures forall known :: Consistent(old(Now()), known) ==> Consistent(Now(), known)
      ensures Blocked(old(Now())) ==> o.Refused? && Now() == old(Now())
      ensures o.Done? ==> idle && document == Some(Document(InForce(old(Now())).profiles, true))
    {
      hide Replayable;
      o := RecoverTransaction();
      if !o.Done? {
        return;
      }
      if !idle {
        return Refused;
      }
      var happens;
      happens, o := NextFate();
      if !o.Done? {
        return;
      }
      happens, o := NextFate();
      if happens {
        document := Some(Document(ShownProfiles(document), true));
      }
    }
  }

  function Backups(d: Disk): set<Pair> {
    if d.pairBackup.Some? then {d.pairBackup.value} else {}
  }

  // ---- whole runs

  datatype Command = Read | Save(commit: Commit) | Downgrade(idle: bool)

  /** What a command may put in force. */
  function Offered(command: Command): set<Pair> {
    if command.Save? then {command.commit.pair} else {}
  }

  method Perform(storage: Storage, command: Command) returns (answer: Option<Pair>)
    modifies storage
    ensures InForce(storage.Now()) == InForce(old(storage.Now())) ||
            (command.Save? && InForce(storage.Now()) == command.commit.pair)
    ensures answer.Some? ==> command.Read? && answer.value == InForce(old(storage.Now()))
    ensures Blocked(old(storage.Now())) ==> storage.Now() == old(storage.Now()) && answer.None?
    ensures forall known :: Consistent(old(storage.Now()), known) ==>
                              Consistent(storage.Now(), known + Offered(command))
  {
    hide Consistent, Blocked, InForce;
    assert forall known: set<Pair> :: known + {} == known;
    answer := None;
    match command {
      case Read =>
        var o, seen := storage.Read();
        if o.Done? {
          answer := Some(seen);
        }
      case Save(commit) =>
        var o := storage.Save(commit);
      case Downgrade(idle) =>
        var o := storage.PrepareLegacyRollback(idle);
    }
  }

  /** Any sequence of readers and writers, each cut short anywhere. history[i] is the last
    * transaction whose journal had reached the disk before command i: only a writer can
    * change it, and only to its own. Every reader that gets an answer is given exactly
    * that transaction, profiles and secrets of one commit, and a backup taken of the old
    * schema is such a pair as well. From a blocked disk nobody is given an answer and
    * nothing changes, whatever the environment does.
    */
  method Run(storage: Storage, commands: seq<(Command, seq<Fate>)>)
    returns (answers: seq<Option<Pair>>, ghost history: seq<Pair>)
    modifies storage
    ensures |answers| == |commands| && |history| == |commands| + 1
    ensures history[0] == old(InForce(storage.Now())) && history[|commands|] == InForce(storage.Now())
    ensures forall i :: 0 <= i < |commands| ==>
              || history[i + 1] == history[i]
              || (commands[i].0.Save? && history[i + 1] == commands[i].0.commit.pair)
    ensures forall i :: 0 <= i < |commands| ==>
              (answers[i].Some? ==> commands[i].0.Read? && answers[i].value == history[i])
    ensures Blocked(old(storage.Now())) ==>
              storage.Now() == old(storage.Now()) && forall i :: 0 <= i < |commands| ==> answers[i].None?
    ensures storage.pairBackup.Some? ==>
              || storage.pairBackup == old(storage.pairBackup)
              || storage.pairBackup.value == old(Shown(storage.Now()))
              || storage.pairBackup.value == history[0]
              || exists i :: 0 <= i < |commands| && commands[i].0.Save?
                             && storage.pairBackup.value == commands[i].0.commit.pair
  {
    answers := [];
    history := [InForce(storage.Now())];
    ghost var known := {InForce(storage.Now()), Shown(storage.Now())} + Backups(storage.Now());
    for i := 0 to |commands|
      invariant |answers| == i && |history| == i + 1
      invariant history[0] == old(InForce(storage.Now())) && history[i] == InForce(storage.Now())
      invariant forall k :: 0 <= k < i ==>
                  || history[k + 1] == history[k]
                  || (commands[k].0.Save? && history[k + 1] == commands[k].0.commit.pair)
      invariant forall k :: 0 <= k < i ==>
                  (answers[k].Some? ==> commands[k].0.Read? && answers[k].value == history[k])
      invariant Consistent(storage.Now(), known)
      invariant Blocked(old(storage.Now())) ==>
                  storage.Now() == old(storage.Now()) && forall k :: 0 <= k < i ==> answers[k].None?
      invariant forall p :: p in known ==>
                  || p == history[0] || p == old(Shown(storage.Now())) || p in old(Backups(storage.Now()))
                  || exists k :: 0 <= k < |commands| && commands[k].0.Save? && p == commands[k].0.commit.pair
    {
      hide Consistent, Blocked, InForce;
      storage.fates := commands[i].1;
      var answer := Perform(storage, commands[i].0);
      known := known + Offered(commands[i].0);
      answers := answers + [answer];
      history := history + [InForce(storage.Now())];
    }
  }

  // ---- commits that block

  /** A secret for a profile that is not in the catalog passes the checks of the commit and
    * fails those of the recovery.
    */
  lemma OrphanSecretBlocks(commit: Commit, id: Id)
    requires Encodes(commit) && id in commit.pair.secrets && id !in commit.pair.profiles
    ensures !Replayable(commit)
  {
  }

  /** Such a commit: one secret and no profile, with lengths far within the limits. */
  const ORPHAN := Commit(Pair(map[], map["gone" := "secret"]), 42, 120)

  lemma OrphanIsCommitted()
    ensures Encodes(ORPHAN) && !Replayable(ORPHAN)
  {
    OrphanSecretBlocks(ORPHAN, "gone");
  }

  /** After such a commit, undisturbed, every later reader and writer is refused and the
    * journal stays, whatever the environment does then.
    */
  method CommitThenRun(storage: Storage, commit: Commit, commands: seq<(Command, seq<Fate>)>)
    returns (answers: seq<Option<Pair>>)
    requires storage.journal.None? && storage.fates == []
    requires Encodes(commit) && !Replayable(commit)
    modifies storage
    ensures storage.journal == Some(commit)
    ensures |answers| == |commands| && forall i :: 0 <= i < |answers| ==> answers[i].None?
  {
    var o := storage.CommitProfiles(commit);
    ghost var history;
    answers, history := Run(storage, commands);
  }
}
