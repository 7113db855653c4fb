/** The offline bundle transaction of crates/manager-core/src/bundle.rs: a set of
  * target files replaced as a whole, with a pending marker, a previous manifest and
  * retained payloads named by their digest.
  *
  * Every change of a file is one atomic step. Before each step the environment
  * decides its fate, so that a crash or an input/output error can strike anywhere.
  */
module Bundle {
  import opened Wrappers

  type Content = seq<bv8>
  /** A target as the launcher fixed it: its name, and how many bytes its name, path and
    * mode take in the text of a manifest.
    */
  datatype Name = Name(id: string, width: nat)

  type Files = map<Name, Content>

  /** SHA-256, taken to be injective. */
  datatype Digest = Sha256(bytes: Content)

  const MAX_PAYLOAD: nat := 256 * 1024 * 1024
  const MAX_TARGETS := 8

  /** The limit on reading a manifest; writing one has none. */
  const MANIFEST_LIMIT := 8192

  datatype Entry = Entry(name: Name, before: Option<Digest>, after: Digest)

  type Manifest = seq<Entry>

  datatype Fate =
    | Goes
    | FailsUndone
    | FailsDone   // an error is reported although the change is visible
    | Dies        // the process ends before the step

  datatype Outcome = Done | Refused | Crashed

  // ---- manifests

  function At(files: Files, n: Name): Option<Content> {
    if n in files then Some(files[n]) else None
  }

  function Unhash(d: Option<Digest>): Option<Content> {
    match d
    case None => None
    case Some(h) => Some(h.bytes)
  }

  predicate DistinctNames(m: Manifest) {
    forall i, j :: 0 <= i < j < |m| ==> m[i].name != m[j].name
  }

  /** One entry for each of the targets. */
  predicate Covers(m: Manifest, names: set<Name>) {
    && |m| == |names|
    && DistinctNames(m)
    && forall e :: e in m ==> e.name in names
  }

  /** The bytes of an entry in the text of a manifest, with the comma after it: its keys and
    * the digest after, the target's own fields, and null or the digest before.
    */
  function EntryLength(n: Name, existed: bool): nat {
    111 + n.width + if existed then 66 else 4
  }

  function EntriesLength(m: Manifest): nat {
    if m == [] then 0 else EntryLength(m[0].name, m[0].before.Some?) + EntriesLength(m[1..])
  }

  /** The length of the text of a manifest that has an entry. */
  function ManifestLength(m: Manifest): nat {
    31 + EntriesLength(m)
  }

  /** What loading a manifest demands: one entry for each of the targets, and a text within
    * the limit.
    */
  predicate Loadable(m: Manifest, names: set<Name>) {
    Covers(m, names) && ManifestLength(m) <= MANIFEST_LIMIT
  }

  function NamesOf(m: Manifest): set<Name> {
    set e | e in m :: e.name
  }

  lemma {:induction false} DistinctNamesCount(m: Manifest)
    requires DistinctNames(m)
    ensures |NamesOf(m)| == |m|
  {
    if m == [] {
      assert NamesOf(m) == {};
    } else {
      var last := |m| - 1;
      DistinctNamesCount(m[..last]);
      assert NamesOf(m) == NamesOf(m[..last]) + {m[last].name} by {
        assert m == m[..last] + [m[last]];
      }
      assert m[last].name !in NamesOf(m[..last]);
    }
  }

  /** A manifest with one entry for each target says something about every target. */
  lemma CoversAll(m: Manifest, names: set<Name>)
    requires Covers(m, names)
    ensures NamesOf(m) == names
  {
    DistinctNamesCount(m);
    assert NamesOf(m) <= names;
    if exists n :: n in names && n !in NamesOf(m) {
      var n :| n in names && n !in NamesOf(m);
      ProperSubsetIsSmaller(NamesOf(m), names, n);
      assert false;
    }
  }

  lemma ProperSubsetIsSmaller<T>(a: set<T>, b: set<T>, x: T)
    requires a <= b && x in b && x !in a
    ensures |a| < |b|
  {
    SubsetIsNotLarger(a, b - {x});
  }

  /** The files a manifest calls before, and those it calls after. */
  function BeforeOf(m: Manifest): Files {
    if m == [] then map[]
    else
      var rest := BeforeOf(m[1..]);
      if m[0].before.Some? then rest[m[0].name := m[0].before.value.bytes] else rest - {m[0].name}
  }

  function AfterOf(m: Manifest): Files {
    if m == [] then map[] else AfterOf(m[1..])[m[0].name := m[0].after.bytes]
  }

  lemma {:induction false} SidesAt(m: Manifest, i: nat)
    requires DistinctNames(m) && i < |m|
    ensures At(BeforeOf(m), m[i].name) == Unhash(m[i].before)
    ensures At(AfterOf(m), m[i].name) == Some(m[i].after.bytes)
  {
    if i > 0 {
      SidesAt(m[1..], i - 1);
    }
  }

  lemma {:induction false} SidesKeys(m: Manifest)
    ensures BeforeOf(m).Keys <= NamesOf(m)
    ensures AfterOf(m).Keys == NamesOf(m)
  {
    if m != [] {
      SidesKeys(m[1..]);
      assert NamesOf(m) == NamesOf(m[1..]) + {m[0].name} by {
        assert m == [m[0]] + m[1..];
      }
    }
  }

  // ---- the disk

  datatype Disk = Disk(
    targets: Files,
    blobs: map<Digest, Content>,
    pending: Option<Manifest>,
    previous: Option<Manifest>)

  predicate Has(blobs: map<Digest, Content>, h: Digest) {
    h in blobs && |blobs[h]| <= MAX_PAYLOAD && Sha256(blobs[h]) == h
  }

  /** Every payload the manifest names is retained under its digest. */
  predicate Retained(blobs: map<Digest, Content>, m: Manifest) {
    forall e :: e in m ==> Has(blobs, e.after) && (e.before.Some? ==> Has(blobs, e.before.value))
  }

  predicate Readable(files: Files, n: Name) {
    n in files ==> |files[n]| <= MAX_PAYLOAD
  }

  /** The check made before the first write of a restoration: no destination holds
    * anything but the two sides, and every payload to write back is intact.
    */
  predicate Restorable(d: Disk, m: Manifest) {
    forall e :: e in m ==>
      && Readable(d.targets, e.name)
      && (At(d.targets, e.name) == Unhash(e.before) || At(d.targets, e.name) == Some(e.after.bytes))
      && (e.before.Some? ==> Has(d.blobs, e.before.value))
  }

  /** A pending transaction that cannot be rolled back: its manifest cannot be read, or some
    * destination or payload is not as it says.
    */
  predicate Blocks(d: Disk, names: set<Name>) {
    d.pending.Some? && !(Loadable(d.pending.value, names) && Restorable(d, d.pending.value))
  }

  /** The bundle in force: what the targets are, or will be once a pending
    * transaction has been rolled back.
    */
  function InForce(d: Disk): Files {
    if d.pending.Some? then BeforeOf(d.pending.value) else d.targets
  }

  /** What the transactions' own history guarantees. */
  predicate Consistent(d: Disk, names: set<Name>) {
    && d.targets.Keys <= names
    && (d.pending.Some? ==>
          Loadable(d.pending.value, names) && Retained(d.blobs, d.pending.value)
          && Mixed(d.targets, d.pending.value))
    && (d.previous.Some? ==>
          Loadable(d.previous.value, names) && Retained(d.blobs, d.previous.value)
          && (InForce(d) == BeforeOf(d.previous.value) || InForce(d) == AfterOf(d.previous.value)))
  }

  /** Each target holds one of the manifest's two sides. */
  predicate Mixed(targets: Files, m: Manifest) {
    forall e :: e in m ==> At(targets, e.name) == Unhash(e.before) || At(targets, e.name) == Some(e.after.bytes)
  }

  /** After any history recovery is possible. */
  lemma ConsistentIsRestorable(d: Disk, names: set<Name>, m: Manifest)
    requires Consistent(d, names)
    requires d.pending == Some(m) || (d.pending.None? && d.previous == Some(m))
    ensures Restorable(d, m)
  {
    forall e | e in m
      ensures && Readable(d.targets, e.name)
              && (At(d.targets, e.name) == Unhash(e.before) || At(d.targets, e.name) == Some(e.after.bytes))
              && (e.before.Some? ==> Has(d.blobs, e.before.value))
    {
      var i :| 0 <= i < |m| && m[i] == e;
      SidesAt(m, i);
    }
  }

  /** Files that agree with a manifest's before side at every entry are that side. */
  lemma FilesAreBefore(files: Files, m: Manifest, names: set<Name>)
    requires Covers(m, names) && files.Keys <= names
    requires forall e :: e in m ==> At(files, e.name) == Unhash(e.before)
    ensures files == BeforeOf(m)
  {
    CoversAll(m, names);
    SidesKeys(m);
    forall n | n in names ensures At(files, n) == At(BeforeOf(m), n) {
      var e :| e in m && e.name == n;
      var i :| 0 <= i < |m| && m[i] == e;
      SidesAt(m, i);
    }
    forall n ensures n in files <==> n in BeforeOf(m) {
      assert n in names ==> At(files, n) == At(BeforeOf(m), n);
    }
    forall n | n in files ensures files[n] == BeforeOf(m)[n] {
      assert At(files, n) == At(BeforeOf(m), n);
    }
  }

  lemma FilesAreAfter(files: Files, m: Manifest, names: set<Name>)
    requires Covers(m, names) && files.Keys <= names
    requires forall e :: e in m ==> At(files, e.name) == Some(e.after.bytes)
    ensures files == AfterOf(m)
  {
    CoversAll(m, names);
    SidesKeys(m);
    forall n | n in names ensures At(files, n) == At(AfterOf(m), n) {
      var e :| e in m && e.name == n;
      var i :| 0 <= i < |m| && m[i] == e;
      SidesAt(m, i);
    }
    forall n | n in names ensures n in files && files[n] == AfterOf(m)[n] {
      assert At(files, n) == At(AfterOf(m), n);
    }
  }

  // ---- the transaction

  class Store {
    const names: seq<Name>
    var targets: Files
    var blobs: map<Digest, Content>
    var pending: Option<Manifest>
    var previous: Option<Manifest>
    /** What befalls the coming file changes; past the end all of them go through. */
    var fates: seq<Fate>

    constructor (names: seq<Name>, targets: Files)
      ensures this.names == names && Now() == Disk(targets, map[], None, None) && fates == []
    {
      this.names := names;
      this.targets := targets;
      blobs := map[];
      pending := None;
      previous := None;
      fates := [];
    }

    function Names(): set<Name> {
      set n | n in names
    }

    function Now(): Disk
      reads this
    {
      Disk(targets, blobs, pending, previous)
    }

    /** The next steps all go through; what is to come after them; the next step is the last. */
    static predicate Spared(fates: seq<Fate>, steps: nat) {
      |fates| >= steps && forall i :: 0 <= i < steps ==> fates[i] == Goes
    }

    static predicate Leaves(fates: seq<Fate>, steps: nat, left: seq<Fate>) {
      |fates| >= steps && left == fates[steps..]
    }

    static predicate Cut(fates: seq<Fate>) {
      fates != [] && fates[0] == Dies
    }

    /** The targets the launcher fixed: at least one, each named once. */
    predicate Opened()
      reads this`targets
    {
      && 0 < |names| <= MAX_TARGETS
      && (forall i, j :: 0 <= i < j < |names| ==> names[i] != names[j])
      && targets.Keys <= Names()
    }

    method NextFate() returns (f: Fate)
      modifies this`fates
      ensures old(fates) == [] ==> f == Goes && fates == []
      ensures old(fates) != [] ==> f == old(fates)[0] && fates == old(fates)[1..]
    {
      if fates == [] {
        return Goes;
      }
      f := fates[0];
      fates := fates[1..];
    }

    method WriteTarget(n: Name, bytes: Content) returns (o: Outcome)
      modifies this`targets, this`fates
      ensures targets == old(targets) || targets == old(targets)[n := bytes]
      ensures o.Done? ==> targets == old(targets)[n := bytes]
      ensures old(fates) == [] ==> o.Done? && fates == []
      ensures Spared(old(fates), 1) ==> o.Done? && fates == old(fates)[1..]
      ensures Cut(old(fates)) ==> o.Crashed? && targets == old(targets)
    {
      var f := NextFate();
      if f == Goes || f == FailsDone {
        targets := targets[n := bytes];
      }
      o := if f == Goes then Done else if f == Dies then Crashed else Refused;
    }

    method RemoveTarget(n: Name) returns (o: Outcome)
      modifies this`targets, this`fates
      ensures targets == old(targets) || targets == old(targets) - {n}
      ensures o.Done? ==> targets == old(targets) - {n}
      ensures old(fates) == [] ==> o.Done? && fates == []
    {
      var f := NextFate();
      if f == Goes || f == FailsDone {
        targets := targets - {n};
      }
      o := if f == Goes then Done else if f == Dies then Crashed else Refused;
    }

    /** The validation pass of a restoration: reads only. */
    method CheckRestorable(m: Manifest) returns (ok: bool)
      ensures ok == Restorable(Now(), m)
    {
      var i := 0;
      while i < |m|
        invariant 0 <= i <= |m|
        invariant forall k :: 0 <= k < i ==> Restorable(Now(), [m[k]])
      {
        var e := m[i];
        assert e in m && e in [e];
        if !Readable(targets, e.name)
           || (At(targets, e.name) != Unhash(e.before) && At(targets, e.name) != Some(e.after.bytes))
           || (e.before.Some? && !Has(blobs, e.before.value))
        {
          return false;
        }
        i := i + 1;
      }
      forall e | e in m ensures Restorable(Now(), [e]) && e in [e] {
        var k :| 0 <= k < |m| && m[k] == e;
      }
      return true;
    }

    method RestoreOne(e: Entry) returns (o: Outcome)
      requires e.before.Some? ==> Has(blobs, e.before.value)
      modifies this`targets, this`fates
      ensures targets.Keys <= old(targets).Keys + {e.name}
      ensures forall n :: n != e.name ==> At(targets, n) == At(old(targets), n)
      ensures At(targets, e.name) == At(old(targets), e.name) || At(targets, e.name) == Unhash(e.before)
      ensures o.Done? ==> At(targets, e.name) == Unhash(e.before)
      ensures old(fates) == [] ==> o.Done? && fates == []
    {
      o := Done;
      if e.before.Some? {
        o := WriteTarget(e.name, blobs[e.before.value]);
      } else if e.name in targets {
        o := RemoveTarget(e.name);
      }
    }

    /** Refused without a change when some destination or payload is not as the
      * manifest says. Otherwise every target moves, if at all, to its before side.
      */
    method Restore(m: Manifest) returns (o: Outcome)
      requires Opened() && Loadable(m, Names())
      modifies this`targets, this`fates
      ensures Opened()
      ensures !Restorable(old(Now()), m) ==> o.Refused? && targets == old(targets) && fates == old(fates)
      ensures forall e :: e in m ==>
                At(targets, e.name) == At(old(targets), e.name) || At(targets, e.name) == Unhash(e.before)
      ensures o.Done? ==> targets == BeforeOf(m)
      ensures old(fates) == [] ==> fates == [] && o == if Restorable(old(Now()), m) then Done else Refused
    {
      var ok := CheckRestorable(m);
      if !ok {
        return Refused;
      }
      var i := 0;
      while i < |m|
        invariant 0 <= i <= |m| && Opened()
        invariant forall k :: 0 <= k < i ==> At(targets, m[k].name) == Unhash(m[k].before)
        invariant forall k :: i <= k < |m| ==> At(targets, m[k].name) == At(old(targets), m[k].name)
        invariant old(fates) == [] ==> fates == []
      {
        var e := m[i];
        assert e in m && e.name in Names();
        o := RestoreOne(e);
        if !o.Done? {
          return;
        }
        i := i + 1;
      }
      FilesAreBefore(targets, m, Names());
      o := Done;
    }

    method SavePending(m: Manifest) returns (o: Outcome)
      modifies this`pending, this`fates
      ensures pending == old(pending) || pending == Some(m)
      ensures o.Done? ==> pending == Some(m)
      ensures old(fates) == [] ==> o.Done? && fates == []
      ensures Spared(old(fates), 1) ==> o.Done? && fates == old(fates)[1..]
    {
      var f := NextFate();
      if f == Goes || f == FailsDone {
        pending := Some(m);
      }
      o := if f == Goes then Done else if f == Dies then Crashed else Refused;
    }

    method SavePrevious(m: Manifest) returns (o: Outcome)
      modifies this`previous, this`fates
      ensures previous == old(previous) || previous == Some(m)
      ensures o.Done? ==> previous == Some(m)
      ensures old(fates) == [] ==> o.Done? && fates == []
      ensures Cut(old(fates)) ==> o.Crashed?
    {
      var f := NextFate();
      if f == Goes || f == FailsDone {
        previous := Some(m);
      }
      o := if f == Goes then Done else if f == Dies then Crashed else Refused;
    }

    method RemovePending() returns (o: Outcome)
      modifies this`pending, this`fates
      ensures pending == old(pending) || pending == None
      ensures o.Done? ==> pending == None
      ensures old(fates) == [] ==> o.Done? && fates == []
    {
      var f := NextFate();
      if f == Goes || f == FailsDone {
        pending := None;
      }
      o := if f == Goes then Done else if f == Dies then Crashed else Refused;
    }

    method RemovePrevious() returns (o: Outcome)
      modifies this`previous, this`fates
      ensures previous == old(previous) || previous == None
      ensures o.Done? ==> previous == None
      ensures old(fates) == [] ==> o.Done? && fates == []
    {
      var f := NextFate();
      if f == Goes || f == FailsDone {
        previous := None;
      }
      o := if f == Goes then Done else if f == Dies then Crashed else Refused;
    }

    /** Retains a payload under its digest, replacing whatever had that name. */
    method Retain(bytes: Content) returns (o: Outcome)
      modifies this`blobs, this`fates
      ensures Kept(old(blobs), blobs)
      ensures o.Done? ==> Has(blobs, Sha256(bytes))
      ensures o.Done? ==> |bytes| <= MAX_PAYLOAD
      ensures old(fates) == [] ==> fates == [] && o == if |bytes| <= MAX_PAYLOAD then Done else Refused
      ensures Spared(old(fates), 1) && |bytes| <= MAX_PAYLOAD ==> o.Done? && fates == old(fates)[1..]
    {
      if |bytes| > MAX_PAYLOAD {
        return Refused;
      }
      var f := NextFate();
      if f == Goes || f == FailsDone {
        blobs := blobs[Sha256(bytes) := bytes];
      }
      o := if f == Goes then Done else if f == Dies then Crashed else Refused;
    }

    method RemoveBlob(h: Digest) returns (o: Outcome)
      modifies this`blobs, this`fates
      ensures blobs == old(blobs) || blobs == old(blobs) - {h}
      ensures o.Done? ==> blobs == old(blobs) - {h}
      ensures old(fates) == [] ==> o.Done? && fates == []
    {
      var f := NextFate();
      if f == Goes || f == FailsDone {
        blobs := blobs - {h};
      }
      o := if f == Goes then Done else if f == Dies then Crashed else Refused;
    }

    /** Removes payloads no manifest names, in any order. */
    method Gc() returns (o: Outcome)
      modifies this`blobs, this`fates
      ensures forall h :: h in Named(old(Now())) ==> (h in blobs <==> h in old(blobs))
      ensures forall h :: h in blobs ==> h in old(blobs) && blobs[h] == old(blobs)[h]
      ensures o.Done? ==> blobs.Keys == old(blobs).Keys * Named(old(Now()))
      ensures !LoadableIfAny(pending, Names()) || !LoadableIfAny(previous, Names()) ==>
                o.Refused? && blobs == old(blobs) && fates == old(fates)
      ensures old(fates) == [] && LoadableIfAny(pending, Names()) && LoadableIfAny(previous, Names()) ==>
                o.Done? && fates == []
    {
      if !LoadableIfAny(pending, Names()) || !LoadableIfAny(previous, Names()) {
        return Refused;
      }
      var retained := Named(Now());
      var garbage := blobs.Keys - retained;
      while garbage != {}
        invariant garbage == blobs.Keys - retained
        invariant forall h :: h in retained ==> (h in blobs <==> h in old(blobs))
        invariant forall h :: h in blobs ==> h in old(blobs) && blobs[h] == old(blobs)[h]
        invariant old(fates) == [] ==> fates == []
        decreases garbage
      {
        var h :| h in garbage;
        o := RemoveBlob(h);
        if !o.Done? {
          return;
        }
        garbage := garbage - {h};
      }
      assert blobs.Keys <= retained by {
        assert forall h :: h in blobs && h !in retained ==> h in garbage;
      }
      assert blobs.Keys == old(blobs).Keys * retained;
      o := Done;
    }

    // ---- recovery

    /** A pending transaction that is not restorable blocks recovery before any write.
      * After any history of transactions it never is, and recovery puts the bundle
      * in force back; it never changes which bundle that is.
      */
    method Recover() returns (o: Outcome)
      requires Opened()
      modifies this`targets, this`blobs, this`pending, this`fates
      ensures Opened()
      ensures Blocks(old(Now()), Names()) ==> o.Refused? && Now() == old(Now())
      ensures old(pending).None? ==> o.Done? && Now() == old(Now()) && fates == old(fates)
      ensures Consistent(old(Now()), Names()) ==>
                Consistent(Now(), Names()) && InForce(Now()) == InForce(old(Now()))
      ensures Consistent(old(Now()), Names()) && o.Done? ==> pending.None? && targets == InForce(old(Now()))
      ensures Consistent(old(Now()), Names()) && old(fates) == [] ==> o.Done? && fates == []
    {
      if pending.None? {
        return Done;
      }
      var m := pending.value;
      if !Loadable(m, Names()) {
        return Refused;
      }
      ghost var before := Now();
      if Consistent(before, Names()) {
        ConsistentIsRestorable(before, Names(), m);
      }
      o := Restore(m);
      if Consistent(before, Names()) {
        TowardsBefore(before, Now(), Names(), m);
      }
      if !o.Done? {
        return;
      }
      o := RemovePending();
      if !o.Done? {
        return;
      }
      o := Gc();
    }

    // ---- installation

    /** Retains both sides of one target. */
    method RetainBoth(n: Name, payloads: Files) returns (o: Outcome, e: Entry)
      requires n in payloads
      modifies this`blobs, this`fates
      ensures Kept(old(blobs), blobs)
      ensures o.Done? ==>
                && Admissible(targets, payloads, {n}) && Retained(blobs, [e])
                && e.name == n && Unhash(e.before) == At(targets, n) && Some(e.after.bytes) == At(payloads, n)
      ensures old(fates) == [] ==> fates == [] && o == if Admissible(targets, payloads, {n}) then Done else Refused
      ensures Admissible(targets, payloads, {n}) && Spared(old(fates), Sides([n], targets)) ==>
                o.Done? && Leaves(old(fates), Sides([n], targets), fates)
    {
      e := Entry(n, None, Sha256(payloads[n]));
      if !Readable(targets, n) {
        return Refused, e;
      }
      if n in targets {
        o := Retain(targets[n]);
        if !o.Done? {
          return;
        }
        e := e.(before := Some(Sha256(targets[n])));
      }
      o := Retain(payloads[n]);
    }

    /** Retains both sides of every target and writes down the transaction. */
    method Prepare(payloads: Files) returns (o: Outcome, m: Manifest)
      requires Opened() && payloads.Keys == Names()
      modifies this`blobs, this`fates
      ensures Kept(old(blobs), blobs)
      ensures o.Done? ==> Describes(m, targets, payloads, names) && Retained(blobs, m)
      ensures old(fates) == [] ==>
                fates == [] && o == if Admissible(targets, payloads, payloads.Keys) then Done else Refused
      ensures Admissible(targets, payloads, payloads.Keys) && Spared(old(fates), Sides(names, targets)) ==>
                o.Done? && Leaves(old(fates), Sides(names, targets), fates)
    {
      m := [];
      var i := 0;
      NothingPrepared(blobs, fates, targets, payloads, names);
      assert forall k :: 0 <= k < |names| ==> names[k] in payloads;
      assert forall n :: n in payloads ==> n in names;
      hide *;
      while i < |names|
        invariant 0 <= i <= |names|
        invariant Prepared(old(blobs), old(fates), targets, payloads, names, i, blobs, fates, m)
      {
        ghost var before, going := blobs, fates;
        var e;
        o, e := RetainBoth(names[i], payloads);
        if !o.Done? {
          NotPrepared(old(blobs), old(fates), targets, payloads, names, i, before, going, m, blobs, fates);
          return;
        }
        EntryPrepared(old(blobs), old(fates), targets, payloads, names, i, before, going, m, blobs, fates, e);
        m := m + [e];
        i := i + 1;
      }
      AllPrepared(old(blobs), old(fates), targets, payloads, names, blobs, fates, m);
      o := Done;
    }

    /** Writes the new payloads, one target after the other. */
    method WriteAll(m: Manifest, payloads: Files) returns (o: Outcome)
      requires Opened() && m != [] && Covers(m, Names()) && payloads.Keys == Names()
      requires AfterMatches(m, payloads)
      modifies this`targets, this`fates
      ensures Opened()
      ensures forall e :: e in m ==>
                At(targets, e.name) == At(old(targets), e.name) || At(targets, e.name) == Some(e.after.bytes)
      ensures o.Done? ==> targets == payloads
      ensures old(fates) == [] ==> o.Done? && fates == []
      ensures old(fates) == [Goes, Dies] ==> targets == old(targets)[m[0].name := payloads[m[0].name]]
      ensures old(fates) == [Goes, Dies] ==> if |m| > 1 then o.Crashed? else o.Done? && fates == [Dies]
    {
      var i := 0;
      ghost var before := targets;
      NothingWritten(before, m);
      EntryMatches(m, payloads, Names(), 0);
      hide Covers, AfterMatches, Wrote, At;
      while i < |m|
        invariant 0 <= i <= |m| && Opened() && Wrote(before, targets, m, i)
        invariant old(fates) == [] ==> fates == []
        invariant old(fates) == [Goes, Dies] ==> i <= 1 && fates == [Goes, Dies][i..]
        invariant old(fates) == [Goes, Dies] ==>
                    targets == if i == 0 then before else before[m[0].name := payloads[m[0].name]]
      {
        EntryMatches(m, payloads, Names(), i);
        ghost var earlier := targets;
        o := WriteTarget(m[i].name, payloads[m[i].name]);
        WroteNext(before, earlier, m, i, Names());
        if !o.Done? {
          WroteSides(before, targets, m, if targets == earlier then i else i + 1);
          return;
        }
        i := i + 1;
      }
      WroteSides(before, targets, m, i);
      FilesAreAfter(targets, m, Names());
      MatchesAll(m, payloads);
      FilesAreAfter(payloads, m, Names());
      o := Done;
    }

    /** The guarded part of an installation: from the first target to the collection. */
    method Replace(m: Manifest, payloads: Files) returns (o: Outcome)
      requires Opened() && payloads.Keys == Names() && AfterMatches(m, payloads)
      requires m != [] && Covers(m, Names()) && pending == Some(m)
      modifies this`targets, this`blobs, this`pending, this`previous, this`fates
      ensures Opened()
      ensures Consistent(old(Now()), Names()) ==>
                && Consistent(Now(), Names())
                && (InForce(Now()) == InForce(old(Now())) || InForce(Now()) == payloads)
                && (o.Done? ==> targets == payloads && pending.None? && previous == Some(m)
                                && blobs.Keys == Named(Now()))
                && (old(fates) == [] ==> o.Done? && fates == [])
      ensures previous == old(previous) || previous == Some(m)
      ensures pending == Some(m) || pending.None?
      ensures !Loadable(m, Names()) ==> !o.Done?
      ensures !Loadable(m, Names()) && old(fates) == [] ==>
                && o.Refused? && fates == []
                && targets == payloads && pending.None? && previous == Some(m)
      ensures old(fates) == [Goes, Dies] ==>
                o.Crashed? && pending == Some(m) && targets == old(targets)[m[0].name := payloads[m[0].name]]
    {
      hide Consistent;
      hide InForce;
      hide Covers;
      hide ManifestLength;
      hide AfterOf;
      hide BeforeOf;
      hide Named;
      ghost var consistent := Consistent(Now(), Names());
      ghost var d0 := Now();
      o := WriteAll(m, payloads);
      if consistent {
        TowardsAfter(d0, Now(), Names(), m);
      }
      if !o.Done? {
        return;
      }
      ghost var d1 := Now();
      FilesAreAfter(targets, m, Names());
      if consistent {
        ThenPrevious(d1, Names(), m);
      }
      o := SavePrevious(m);
      if !o.Done? {
        return;
      }
      ghost var d2 := Now();
      if consistent {
        ThenCommit(d2, Names(), m);
      }
      o := RemovePending();
      if !o.Done? {
        return;
      }
      ghost var d3 := Now();
      o := Gc();
      if consistent {
        ManifestsAreLoadable(d3, Names());
        AfterGc(d3, Now(), Names());
      }
    }

    /** Provided that its manifest can be read back, an installation leaves either the old
      * bundle in force or the whole new one, in which case the old one is kept for a
      * rollback. Without an outside failure it succeeds exactly when the payloads are for
      * these targets, no file is too large and the manifest can be read back. With a
      * manifest that is too long it never succeeds: undisturbed, it leaves the new targets
      * with a previous manifest that nothing can read.
      */
    method Install(payloads: Files) returns (o: Outcome)
      requires Opened()
      modifies this`targets, this`blobs, this`pending, this`previous, this`fates
      ensures Opened()
      ensures Blocks(old(Now()), Names()) ==> o.Refused? && Now() == old(Now())
      ensures Consistent(old(Now()), Names()) && Short(names, InForce(old(Now()))) ==>
                && Consistent(Now(), Names())
                && (InForce(Now()) == InForce(old(Now())) || InForce(Now()) == payloads)
                && (previous == old(previous) || IsReplacement(previous, InForce(old(Now())), payloads))
      ensures Consistent(old(Now()), Names()) && o.Done? ==>
                && targets == payloads && pending.None? && blobs.Keys == Named(Now())
                && IsReplacement(previous, InForce(old(Now())), payloads)
      ensures Consistent(old(Now()), Names()) && old(fates) == [] ==>
                && pending.None?
                && (o.Done? <==>
                      payloads.Keys == Names() && Admissible(InForce(old(Now())), payloads, Names())
                      && Short(names, InForce(old(Now()))))
                && (!o.Done? ==> o.Refused?)
                && (payloads.Keys != Names() || !Admissible(InForce(old(Now())), payloads, Names()) ==>
                      targets == InForce(old(Now())))
                && (payloads.Keys == Names() && Admissible(InForce(old(Now())), payloads, Names())
                    && !Short(names, InForce(old(Now()))) ==>
                      targets == payloads && previous.Some? && !Loadable(previous.value, Names()))
      ensures old(pending).None? && payloads.Keys == Names() && Admissible(old(targets), payloads, Names())
              && old(fates) == AfterFirst(names, old(targets)) ==>
                && o.Crashed? && pending.Some? && Describes(pending.value, old(targets), payloads, names)
                && targets == old(targets)[names[0] := payloads[names[0]]]
    {
      hide Consistent, InForce, Restorable, Mixed, Retained, BeforeOf, AfterOf, Named, Admissible;
      hide Describes, AfterMatches, Covers, ManifestLength, DescribedLength, Sides, Spared, AfterFirst, Kept;
      ghost var consistent := Consistent(Now(), Names());
      o := Recover();
      if !o.Done? {
        return;
      }
      if payloads.Keys != Names() {
        return Refused;
      }
      ghost var d0 := Now();
      AfterFirstFates(names, targets);
      var m;
      o, m := Prepare(payloads);
      ghost var d1 := Now();
      if consistent {
        AfterRetain(d0, d1, Names());
      }
      if !o.Done? {
        return;
      }
      DescriptionMeans(m, targets, payloads, names, Names());
      DescriptionLength(m, targets, payloads, names);
      if consistent && Loadable(m, Names()) {
        ThenPending(d1, Names(), m);
      }
      o := SavePending(m);
      if !o.Done? {
        return;
      }
      o := Replace(m, payloads);
      if o.Refused? {
        var recovery := Recover();
        if recovery.Crashed? {
          return Crashed;
        }
      }
    }

    /** A rollback puts the previous bundle back as a whole, or leaves the present one
      * in force. Without an outside failure it succeeds exactly when there is a
      * previous bundle, and it can be used once. A previous manifest that is too long
      * to be read back cannot be rolled back to.
      */
    method Rollback() returns (o: Outcome)
      requires Opened()
      modifies this`targets, this`blobs, this`pending, this`previous, this`fates
      ensures Opened()
      ensures Blocks(old(Now()), Names()) ==> o.Refused? && Now() == old(Now())
      ensures old(pending).None? && !(old(previous).Some? && Loadable(old(previous).value, Names())) ==>
                o.Refused? && Now() == old(Now())
      ensures Consistent(old(Now()), Names()) ==>
                && Consistent(Now(), Names())
                && (InForce(Now()) == InForce(old(Now()))
                    || (old(previous).Some? && InForce(Now()) == BeforeOf(old(previous).value)))
                && (previous == old(previous) || previous.None?)
      ensures Consistent(old(Now()), Names()) && o.Done? ==>
                && old(previous).Some? && targets == BeforeOf(old(previous).value)
                && pending.None? && previous.None? && blobs == map[]
      ensures Consistent(old(Now()), Names()) && old(fates) == [] ==>
                && pending.None?
                && (o.Done? <==> old(previous).Some?)
                && (!o.Done? ==> o.Refused? && targets == InForce(old(Now())))
    {
      hide Consistent;
      hide InForce;
      hide Restorable;
      hide Mixed;
      hide Retained;
      hide BeforeOf;
      hide AfterOf;
      hide Named;
      ghost var consistent := Consistent(Now(), Names());
      o := Recover();
      if !o.Done? {
        return;
      }
      if previous.None? || !Loadable(previous.value, Names()) {
        if consistent {
          ManifestsAreLoadable(Now(), Names());
        }
        return Refused;
      }
      var m := previous.value;
      ghost var d0 := Now();
      if consistent {
        PreviousCanPend(d0, Names(), m);
        ThenPending(d0, Names(), m);
      }
      o := SavePending(m);
      if !o.Done? {
        return;
      }
      ghost var d1 := Now();
      if consistent {
        ConsistentIsRestorable(d1, Names(), m);
      }
      o := Restore(m);
      ghost var d2 := Now();
      if consistent {
        TowardsBefore(d1, d2, Names(), m);
      }
      if !o.Done? {
        return;
      }
      if consistent {
        ThenCommit(d2, Names(), m);
      }
      o := RemovePending();
      if !o.Done? {
        return;
      }
      if consistent {
        ThenForget(Now(), Names());
      }
      o := RemovePrevious();
      if !o.Done? {
        return;
      }
      ghost var d4 := Now();
      o := Gc();
      if consistent {
        AfterGc(d4, Now(), Names());
      }
      NothingNamed(Now());
    }
  }

  /** The manifest of an installation of payloads over the bundle before. */
  predicate IsReplacement(m: Option<Manifest>, before: Files, payloads: Files) {
    m.Some? && BeforeOf(m.value) == before && AfterOf(m.value) == payloads
  }

  // ---- whole runs

  datatype Command = Install(payloads: Files) | Rollback | Recover

  /** The bundles a run knows of: the one in force at its start, the one that a
    * rollback would then have brought back, and those it was asked to install.
    */
  function Known(d: Disk, commands: seq<(Command, seq<Fate>)>): set<Files> {
    {InForce(d)}
    + (if d.previous.Some? then {BeforeOf(d.previous.value)} else {})
    + (set c | c in commands && c.0.Install? :: c.0.payloads)
  }

  /** Any sequence of commands, each cut short anywhere and each followed by a restart, for
    * targets whose manifests can all be read back: the bundle in force is always a known
    * one, so with no pending marker the targets are one complete known bundle, and with a
    * pending marker they will be after a recovery, which nothing in this history can block.
    */
  method Run(store: Store, commands: seq<(Command, seq<Fate>)>)
    requires store.Opened() && Consistent(store.Now(), store.Names())
    requires LongestLength(store.names) <= MANIFEST_LIMIT
    modifies store
    ensures store.Opened() && Consistent(store.Now(), store.Names())
    ensures InForce(store.Now()) in Known(old(store.Now()), commands)
    ensures store.pending.None? ==> store.targets in Known(old(store.Now()), commands)
    ensures store.pending.Some? ==>
              Mixed(store.targets, store.pending.value) && Restorable(store.Now(), store.pending.value)
  {
    hide Consistent;
    hide Restorable;
    hide Mixed;
    hide BeforeOf;
    hide AfterOf;
    ghost var d := store.Now();
    var i := 0;
    while i < |commands|
      invariant 0 <= i <= |commands|
      invariant store.Opened() && Consistent(store.Now(), store.Names())
      invariant InForce(store.Now()) in Known(d, commands)
      invariant store.previous.Some? ==> BeforeOf(store.previous.value) in Known(d, commands)
    {
      var (command, fates) := commands[i];
      NotLonger(store.names, InForce(store.Now()));
      assert commands[i] in commands;
      store.fates := fates;
      var outcome;
      match command {
        case Install(payloads) => outcome := store.Install(payloads);
        case Rollback => outcome := store.Rollback();
        case Recover => outcome := store.Recover();
      }
      i := i + 1;
    }
    if store.pending.Some? {
      ConsistentIsRestorable(store.Now(), store.Names(), store.pending.value);
      PendingIsMixed(store.Now(), store.Names());
    }
  }

  /** The commands cannot change anything any more once a pending manifest is too long. */
  method RunBlocked(store: Store, commands: seq<(Command, seq<Fate>)>) returns (outcomes: seq<Outcome>)
    requires store.Opened() && store.pending.Some? && !Loadable(store.pending.value, store.Names())
    modifies store
    ensures store.Now() == old(store.Now())
    ensures |outcomes| == |commands| && forall i :: 0 <= i < |commands| ==> outcomes[i] == Refused
  {
    outcomes := [];
    hide Consistent, Loadable, Restorable, InForce;
    for i := 0 to |commands|
      invariant store.Now() == old(store.Now()) && store.Opened()
      invariant |outcomes| == i && forall k :: 0 <= k < i ==> outcomes[k] == Refused
    {
      var (command, fates) := commands[i];
      store.fates := fates;
      var outcome;
      match command {
        case Install(payloads) => outcome := store.Install(payloads);
        case Rollback => outcome := store.Rollback();
        case Recover => outcome := store.Recover();
      }
      outcomes := outcomes + [outcome];
    }
  }

  /** The contents an installation retains: both sides of each target. */
  function Sides(names: seq<Name>, files: Files): nat {
    if names == [] then 0 else (if names[0] in files then 2 else 1) + Sides(names[1..], files)
  }

  /** Of the fates of a run of steps that all go through, the rest is still to come. */
  predicate OnTrack(start: seq<Fate>, total: nat, now: seq<Fate>, left: nat) {
    Store.Spared(start, total) ==> Store.Spared(now, left) && now[left..] == start[total..]
  }

  ghost predicate Kept(before: map<Digest, Content>, after: map<Digest, Content>) {
    forall h :: Has(before, h) ==> Has(after, h)
  }

  /** The first i targets have been prepared: both their sides are retained and described. */
  ghost predicate Prepared(
      blobs: map<Digest, Content>, fates: seq<Fate>, targets: Files, payloads: Files, names: seq<Name>, i: nat,
      nowBlobs: map<Digest, Content>, nowFates: seq<Fate>, m: Manifest)
    requires i <= |names|
  {
    && Describes(m, targets, payloads, names[..i]) && Retained(nowBlobs, m) && Kept(blobs, nowBlobs)
    && AdmissibleTo(targets, payloads, names[..i])
    && (fates == [] ==> nowFates == [])
    && (Admissible(targets, payloads, payloads.Keys) ==>
          OnTrack(fates, Sides(names, targets), nowFates, Sides(names[i..], targets)))
  }

  lemma NothingPrepared(
      blobs: map<Digest, Content>, fates: seq<Fate>, targets: Files, payloads: Files, names: seq<Name>)
    ensures Prepared(blobs, fates, targets, payloads, names, 0, blobs, fates, [])
  {
    assert names[0..] == names;
  }

  lemma EntryPrepared(
      blobs: map<Digest, Content>, fates: seq<Fate>, targets: Files, payloads: Files, names: seq<Name>, i: nat,
      nowBlobs: map<Digest, Content>, nowFates: seq<Fate>, m: Manifest,
      nextBlobs: map<Digest, Content>, nextFates: seq<Fate>, e: Entry)
    requires i < |names| && names[i] in payloads
    requires Prepared(blobs, fates, targets, payloads, names, i, nowBlobs, nowFates, m)
    requires Kept(nowBlobs, nextBlobs) && Retained(nextBlobs, [e]) && Admissible(targets, payloads, {names[i]})
    requires e.name == names[i] && Unhash(e.before) == At(targets, names[i])
    requires Some(e.after.bytes) == At(payloads, names[i])
    requires nowFates == [] ==> nextFates == []
    requires Store.Spared(nowFates, Sides([names[i]], targets)) ==>
               Store.Leaves(nowFates, Sides([names[i]], targets), nextFates)
    ensures Prepared(blobs, fates, targets, payloads, names, i + 1, nextBlobs, nextFates, m + [e])
  {
    hide Admissible, AdmissibleTo, Describes, Retained, Kept, OnTrack, Sides, Has, At, Unhash;
    var front := names[..i];
    assert names[..i + 1] == front + [names[i]];
    DescribesNext(m, e, targets, payloads, front, names[i]);
    RetainedNext(blobs, nowBlobs, nextBlobs, m, e);
    AdmissibleNext(targets, payloads, front, names[i]);
    SidesSplit(names, i, targets);
    if Admissible(targets, payloads, payloads.Keys) {
      TrackStep(fates, Sides(names, targets), nowFates, Sides([names[i]], targets), nextFates,
                Sides(names[i + 1..], targets));
    }
  }

  lemma DescribesNext(m: Manifest, e: Entry, targets: Files, payloads: Files, names: seq<Name>, n: Name)
    requires Describes(m, targets, payloads, names) && e.name == n
    requires Unhash(e.before) == At(targets, n) && Some(e.after.bytes) == At(payloads, n)
    ensures Describes(m + [e], targets, payloads, names + [n])
  {
  }

  lemma RetainedNext(
      blobs: map<Digest, Content>, now: map<Digest, Content>, next: map<Digest, Content>, m: Manifest, e: Entry)
    requires Kept(blobs, now) && Kept(now, next) && Retained(now, m) && Retained(next, [e])
    ensures Kept(blobs, next) && Retained(next, m + [e])
  {
    hide Has;
    assert e in [e];
  }

  predicate AdmissibleTo(targets: Files, payloads: Files, names: seq<Name>) {
    forall n :: n in names ==> Admissible(targets, payloads, {n})
  }

  lemma AdmissibleNext(targets: Files, payloads: Files, names: seq<Name>, n: Name)
    requires AdmissibleTo(targets, payloads, names) && Admissible(targets, payloads, {n})
    ensures AdmissibleTo(targets, payloads, names + [n])
  {
    hide Admissible;
  }

  lemma TrackStep(start: seq<Fate>, total: nat, now: seq<Fate>, steps: nat, next: seq<Fate>, left: nat)
    requires OnTrack(start, total, now, steps + left)
    requires Store.Spared(now, steps) ==> Store.Leaves(now, steps, next)
    ensures OnTrack(start, total, next, left)
  {
    if Store.Spared(start, total) {
      assert next[left..] == now[steps + left..];
    }
  }

  lemma NotPrepared(
      blobs: map<Digest, Content>, fates: seq<Fate>, targets: Files, payloads: Files, names: seq<Name>, i: nat,
      nowBlobs: map<Digest, Content>, nowFates: seq<Fate>, m: Manifest,
      nextBlobs: map<Digest, Content>, nextFates: seq<Fate>)
    requires i < |names| && names[i] in payloads
    requires Prepared(blobs, fates, targets, payloads, names, i, nowBlobs, nowFates, m)
    requires Kept(nowBlobs, nextBlobs)
    requires !(Admissible(targets, payloads, {names[i]}) && Store.Spared(nowFates, Sides([names[i]], targets)))
    ensures Kept(blobs, nextBlobs) && (fates == [] ==> nowFates == [])
    ensures Admissible(targets, payloads, payloads.Keys) ==>
              Admissible(targets, payloads, {names[i]}) && !Store.Spared(fates, Sides(names, targets))
  {
    SidesSplit(names, i, targets);
    hide Sides, Has;
  }

  lemma AllPrepared(
      blobs: map<Digest, Content>, fates: seq<Fate>, targets: Files, payloads: Files, names: seq<Name>,
      nowBlobs: map<Digest, Content>, nowFates: seq<Fate>, m: Manifest)
    requires forall n :: n in payloads ==> n in names
    requires Prepared(blobs, fates, targets, payloads, names, |names|, nowBlobs, nowFates, m)
    ensures Describes(m, targets, payloads, names) && Retained(nowBlobs, m) && Kept(blobs, nowBlobs)
    ensures Admissible(targets, payloads, payloads.Keys) && (fates == [] ==> nowFates == [])
    ensures Store.Spared(fates, Sides(names, targets)) ==> Store.Leaves(fates, Sides(names, targets), nowFates)
  {
    assert names[..|names|] == names && names[|names|..] == [];
    hide Has, Retained, Describes;
    forall n | n in payloads ensures Readable(targets, n) && Readable(payloads, n) {
      assert n in names && n in names[..|names|] && n in {n};
    }
  }

  lemma SidesSplit(names: seq<Name>, i: nat, files: Files)
    requires i < |names|
    ensures Sides(names[i..], files) == Sides([names[i]], files) + Sides(names[i + 1..], files)
  {
    assert names[i..][1..] == names[i + 1..] && [names[i]][1..] == [];
  }

  /** An installation's steps up to its first target go through and the next one is the last:
    * the contents, the marker, the target.
    */
  function AfterFirst(names: seq<Name>, files: Files): seq<Fate> {
    seq(Sides(names, files), i => Goes) + [Goes, Goes, Dies]
  }

  lemma AfterFirstFates(names: seq<Name>, files: Files)
    ensures Store.Spared(AfterFirst(names, files), Sides(names, files))
    ensures AfterFirst(names, files)[Sides(names, files)..] == [Goes, Goes, Dies]
    ensures [Goes, Goes, Dies][1..] == [Goes, Dies] && Store.Spared([Goes, Goes, Dies], 1)
  {
  }

  /** An installation that crashes after its first target when its manifest is too long: what is
    * left is one new target among old ones, and every later command is blocked.
    */
  method CrashWithLongManifest(store: Store, payloads: Files)
    requires store.Opened() && store.pending.None? && store.fates == AfterFirst(store.names, store.targets)
    requires payloads.Keys == store.Names() && Admissible(store.targets, payloads, store.Names())
    requires !Short(store.names, store.targets)
    modifies store
    ensures store.Opened() && store.pending.Some? && !Loadable(store.pending.value, store.Names())
    ensures store.targets == old(store.targets)[store.names[0] := payloads[store.names[0]]]
  {
    hide Covers, ManifestLength, Describes, Admissible, DescribedLength, Consistent, InForce, Restorable, AfterFirst;
    var o := store.Install(payloads);
    DescriptionLength(store.pending.value, old(store.targets), payloads, store.names);
  }

  /** The greatest length a manifest of these targets can have. */
  function LongestLength(names: seq<Name>): nat {
    31 + LongestEntries(names)
  }

  function LongestEntries(names: seq<Name>): nat {
    if names == [] then 0 else EntryLength(names[0], true) + LongestEntries(names[1..])
  }

  lemma {:induction false} EntriesNotLonger(names: seq<Name>, files: Files)
    ensures DescribedEntries(names, files) <= LongestEntries(names)
    ensures (forall n :: n in names ==> n in files) ==> DescribedEntries(names, files) == LongestEntries(names)
  {
    if names != [] {
      EntriesNotLonger(names[1..], files);
      assert names[0] in names && forall n :: n in names[1..] ==> n in names;
    }
  }

  lemma NotLonger(names: seq<Name>, files: Files)
    ensures LongestLength(names) <= MANIFEST_LIMIT ==> Short(names, files)
  {
    EntriesNotLonger(names, files);
  }

  /** Whatever files there are, manifests can be read back, exactly if the names, paths and
    * modes of the targets are short enough.
    */
  lemma AlwaysShortExactly(names: seq<Name>)
    ensures (forall files: Files :: Short(names, files)) <==> LongestLength(names) <= MANIFEST_LIMIT
  {
    var all: Files := map n | n in names :: [];
    EntriesNotLonger(names, all);
    forall files: Files ensures LongestLength(names) <= MANIFEST_LIMIT ==> Short(names, files) {
      NotLonger(names, files);
    }
    assert Short(names, all) <==> LongestLength(names) <= MANIFEST_LIMIT;
  }

  lemma PendingIsMixed(d: Disk, names: set<Name>)
    requires Consistent(d, names) && d.pending.Some?
    ensures Mixed(d.targets, d.pending.value)
  {
  }

  /** The digests the two manifests of a disk name. */
  function Named(d: Disk): set<Digest> {
    NamedBy(d.pending) + NamedBy(d.previous)
  }

  function NamedBy(m: Option<Manifest>): set<Digest> {
    match m
    case None => {}
    case Some(es) => (set e | e in es :: e.after) + (set e | e in es && e.before.Some? :: e.before.value)
  }

  predicate LoadableIfAny(m: Option<Manifest>, names: set<Name>) {
    m.Some? ==> Loadable(m.value, names)
  }

  /** Moving some targets of a pending transaction to its before side keeps everything. */
  lemma TowardsBefore(d: Disk, d': Disk, names: set<Name>, m: Manifest)
    requires Consistent(d, names) && d.pending == Some(m) && d'.targets.Keys <= names
    requires d' == d.(targets := d'.targets)
    requires forall e :: e in m ==>
               At(d'.targets, e.name) == At(d.targets, e.name) || At(d'.targets, e.name) == Unhash(e.before)
    ensures Consistent(d', names) && InForce(d') == InForce(d)
  {
  }

  /** A manifest that names its targets in order, with their contents as before side
    * and the payloads as after side.
    */
  predicate Describes(m: Manifest, targets: Files, payloads: Files, names: seq<Name>) {
    && |m| == |names|
    && forall i :: 0 <= i < |m| ==>
         && m[i].name == names[i]
         && Unhash(m[i].before) == At(targets, names[i])
         && Some(m[i].after.bytes) == At(payloads, names[i])
  }

  lemma {:induction false} SeqCount(names: seq<Name>, all: set<Name>)
    requires forall i, j :: 0 <= i < j < |names| ==> names[i] != names[j]
    requires all == set n | n in names
    ensures |all| == |names|
  {
    if names != [] {
      var last := |names| - 1;
      var rest := set n | n in names[..last];
      SeqCount(names[..last], rest);
      assert names == names[..last] + [names[last]];
      assert all == rest + {names[last]};
      assert names[last] !in rest;
    }
  }

  /** The transaction written down by an installation has one entry for each target, the present
    * targets as before side and the payloads as after side.
    */
  lemma DescriptionMeans(m: Manifest, targets: Files, payloads: Files, names: seq<Name>, all: set<Name>)
    requires forall i, j :: 0 <= i < j < |names| ==> names[i] != names[j]
    requires all == set n | n in names
    requires targets.Keys <= all && payloads.Keys == all && Describes(m, targets, payloads, names)
    ensures Covers(m, all) && Mixed(targets, m) && AfterMatches(m, payloads)
    ensures BeforeOf(m) == targets && AfterOf(m) == payloads
    ensures names != [] ==> m != [] && m[0].name == names[0]
  {
    SeqCount(names, all);
    forall e | e in m
      ensures e.name in all
      ensures At(targets, e.name) == Unhash(e.before) && At(payloads, e.name) == Some(e.after.bytes)
    {
      var i :| 0 <= i < |m| && m[i] == e;
      assert names[i] in names;
    }
    FilesAreBefore(targets, m, all);
    FilesAreAfter(payloads, m, all);
  }

  /** The length of the manifest that describes these files. */
  function DescribedLength(names: seq<Name>, files: Files): nat {
    31 + DescribedEntries(names, files)
  }

  function DescribedEntries(names: seq<Name>, files: Files): nat {
    if names == [] then 0 else EntryLength(names[0], names[0] in files) + DescribedEntries(names[1..], files)
  }

  /** A manifest describing these files can be read back. */
  predicate Short(names: seq<Name>, files: Files) {
    DescribedLength(names, files) <= MANIFEST_LIMIT
  }

  lemma {:induction false} DescriptionLength(m: Manifest, targets: Files, payloads: Files, names: seq<Name>)
    requires Describes(m, targets, payloads, names)
    ensures ManifestLength(m) == DescribedLength(names, targets)
  {
    if m != [] {
      assert Unhash(m[0].before) == At(targets, names[0]);
      DescriptionLength(m[1..], targets, payloads, names[1..]);
    }
  }

  lemma PreviousCanPend(d: Disk, names: set<Name>, m: Manifest)
    requires Consistent(d, names) && d.pending.None? && d.previous == Some(m)
    ensures Loadable(m, names) && Retained(d.blobs, m) && Mixed(d.targets, m)
  {
    forall e | e in m
      ensures At(d.targets, e.name) == Unhash(e.before) || At(d.targets, e.name) == Some(e.after.bytes)
    {
      var i :| 0 <= i < |m| && m[i] == e;
      SidesAt(m, i);
    }
  }

  lemma NothingNamed(d: Disk)
    ensures d.pending.None? && d.previous.None? ==> Named(d) == {}
  {
  }

  /** The first i targets hold their after side and the others what they held before. */
  predicate Wrote(before: Files, now: Files, m: Manifest, i: nat) {
    forall k :: 0 <= k < |m| ==>
      At(now, m[k].name) == if k < i then Some(m[k].after.bytes) else At(before, m[k].name)
  }

  lemma NothingWritten(before: Files, m: Manifest)
    ensures Wrote(before, before, m, 0)
  {
  }

  lemma WroteNext(before: Files, now: Files, m: Manifest, i: nat, names: set<Name>)
    requires i < |m| && Covers(m, names) && Wrote(before, now, m, i)
    ensures Wrote(before, now[m[i].name := m[i].after.bytes], m, i + 1)
  {
  }

  lemma WroteSides(before: Files, now: Files, m: Manifest, i: nat)
    requires Wrote(before, now, m, i)
    ensures forall e :: e in m ==> At(now, e.name) == At(before, e.name) || At(now, e.name) == Some(e.after.bytes)
    ensures i >= |m| ==> forall e :: e in m ==> At(now, e.name) == Some(e.after.bytes)
  {
  }

  lemma EntryMatches(m: Manifest, payloads: Files, names: set<Name>, i: nat)
    requires i < |m| && Covers(m, names) && AfterMatches(m, payloads) && payloads.Keys == names
    ensures m[i].name in names && m[i].after.bytes == payloads[m[i].name]
  {
    assert m[i] in m;
  }

  lemma MatchesAll(m: Manifest, payloads: Files)
    requires AfterMatches(m, payloads)
    ensures forall e :: e in m ==> At(payloads, e.name) == Some(e.after.bytes)
  {
  }

  predicate AfterMatches(m: Manifest, payloads: Files) {
    forall e :: e in m ==> Some(e.after.bytes) == At(payloads, e.name)
  }

  /** No file to be read or retained exceeds the payload limit. */
  predicate Admissible(targets: Files, payloads: Files, names: set<Name>) {
    forall n :: n in names ==> Readable(targets, n) && Readable(payloads, n)
  }

  // ---- what each step of a transaction keeps

  lemma ManifestsAreLoadable(d: Disk, names: set<Name>)
    requires Consistent(d, names)
    ensures LoadableIfAny(d.pending, names) && LoadableIfAny(d.previous, names)
  {
  }

  lemma TowardsAfter(d: Disk, d': Disk, names: set<Name>, m: Manifest)
    requires Consistent(d, names) && d.pending == Some(m) && d'.targets.Keys <= names
    requires d' == d.(targets := d'.targets)
    requires forall e :: e in m ==>
               At(d'.targets, e.name) == At(d.targets, e.name) || At(d'.targets, e.name) == Some(e.after.bytes)
    ensures Consistent(d', names) && InForce(d') == InForce(d)
  {
  }

  lemma ThenPrevious(d: Disk, names: set<Name>, m: Manifest)
    requires Consistent(d, names) && d.pending == Some(m)
    ensures Consistent(d.(previous := Some(m)), names) && InForce(d.(previous := Some(m))) == InForce(d)
  {
  }

  lemma ThenCommit(d: Disk, names: set<Name>, m: Manifest)
    requires Consistent(d, names) && d.pending == d.previous == Some(m)
    requires d.targets == AfterOf(m) || d.targets == BeforeOf(m)
    ensures Consistent(d.(pending := None), names) && InForce(d.(pending := None)) == d.targets
  {
  }

  /** Retaining payloads keeps everything. */
  lemma AfterRetain(d: Disk, d': Disk, names: set<Name>)
    requires Consistent(d, names)
    requires d' == d.(blobs := d'.blobs)
    requires Kept(d.blobs, d'.blobs)
    ensures Consistent(d', names) && InForce(d') == InForce(d)
  {
  }

  /** Once the pending marker is written, what was in force stays in force. */
  lemma ThenPending(d: Disk, names: set<Name>, m: Manifest)
    requires Consistent(d, names) && d.pending.None?
    requires Loadable(m, names) && Retained(d.blobs, m) && Mixed(d.targets, m)
    requires BeforeOf(m) == d.targets || d.previous == Some(m)
    ensures Consistent(d.(pending := Some(m)), names) && InForce(d.(pending := Some(m))) == BeforeOf(m)
  {
  }

  lemma ThenForget(d: Disk, names: set<Name>)
    requires Consistent(d, names)
    ensures Consistent(d.(previous := None), names) && InForce(d.(previous := None)) == InForce(d)
  {
  }

  /** Collecting garbage keeps everything a later recovery or rollback needs. */
  lemma AfterGc(d: Disk, d': Disk, names: set<Name>)
    requires Consistent(d, names)
    requires d' == d.(blobs := d'.blobs)
    requires forall h :: h in Named(d) ==> (h in d'.blobs <==> h in d.blobs)
    requires forall h :: h in d'.blobs ==> h in d.blobs && d'.blobs[h] == d.blobs[h]
    ensures Consistent(d', names)
    ensures Named(d) <= d.blobs.Keys && Named(d') == Named(d) && InForce(d') == InForce(d)
  {
    hide BeforeOf, AfterOf, Mixed, Loadable;
    StillRetained(d.blobs, d'.blobs, d.pending, Named(d));
    StillRetained(d.blobs, d'.blobs, d.previous, Named(d));
    hide Retained, NamedBy;
  }

  lemma StillRetained(blobs: map<Digest, Content>, kept: map<Digest, Content>, m: Option<Manifest>, named: set<Digest>)
    requires m.Some? ==> Retained(blobs, m.value)
    requires NamedBy(m) <= named
    requires forall h :: h in named ==> (h in kept <==> h in blobs)
    requires forall h :: h in kept ==> h in blobs && kept[h] == blobs[h]
    ensures m.Some? ==> Retained(kept, m.value)
    ensures NamedBy(m) <= blobs.Keys
  {
    if m.Some? {
      forall e | e in m.value
        ensures Has(kept, e.after) && (e.before.Some? ==> Has(kept, e.before.value))
      {
        assert e.after in NamedBy(m);
        assert e.before.Some? ==> e.before.value in NamedBy(m);
      }
    }
  }
}
