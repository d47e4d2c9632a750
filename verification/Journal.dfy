/** The journal's durability protocol as state transitions. */
module Journal {
  // A workspace is a tree of names.  A name is durable once its directory was synced after the
  // name last changed; a file is synced once its bytes were.  System calls are numbered, and
  // `fails` says which of them raise, so every lemma about all `fails` covers every crash of
  // every call.

  import opened Common

  type Path = seq<string>
  type Bytes = seq<bv8>
  type Digest = string

  /** `stat` stands for the stat tuple: no two writes of a file share it. */
  datatype Node = Directory | File(bytes: Bytes, synced: bool, stat: nat) | Symlink

  /** `unreconciled` holds the heads whose publication was reported as indeterminate. */
  datatype Disk = Disk(nodes: map<Path, Node>, durable: set<Path>, unreconciled: set<Path>, clock: nat)

  datatype Artifact = Artifact(digest: Digest, length: nat, stat: nat)

  /** What one transaction's witness remembers. */
  datatype Facts = Facts(directories: set<Path>, edges: set<(Path, string)>, artifacts: map<Path, Artifact>)

  datatype Journal = Journal(disk: Disk, facts: Option<Facts>)

  /** The state after a call and whether it returned normally. */
  datatype Effect = Effect(journal: Journal, ok: bool)

  type Faults = nat -> bool
  type Hash = Bytes -> Digest

  ghost predicate Injective(sha: Hash) {
    forall a, b :: sha(a) == sha(b) ==> a == b
  }

  // ---- System calls ---------------------------------------------------------------------------

  function Parent(path: Path): Path
    requires path != []
  {
    path[..|path| - 1]
  }

  function EntriesOf(nodes: map<Path, Node>, directory: Path): (entries: set<Path>)
    ensures forall path :: path in entries <==> path in nodes && path != [] && Parent(path) == directory
  {
    set path | path in nodes && path != [] && Parent(path) == directory
  }

  function Synced(disk: Disk, directory: Path): Disk {
    disk.(durable := disk.durable + EntriesOf(disk.nodes, directory), clock := disk.clock + 1)
  }

  function Made(disk: Disk, path: Path): Disk {
    disk.(nodes := disk.nodes[path := Directory], durable := disk.durable - {path}, clock := disk.clock + 1)
  }

  function FileSynced(disk: Disk, path: Path): Disk
    requires path in disk.nodes && disk.nodes[path].File?
  {
    disk.(nodes := disk.nodes[path := disk.nodes[path].(synced := true)], clock := disk.clock + 1)
  }

  /** A synced temporary file takes the name `path`. */
  function Replaced(disk: Disk, path: Path, payload: Bytes): Disk {
    disk.(nodes := disk.nodes[path := File(payload, true, disk.clock)], durable := disk.durable - {path}, clock := disk.clock + 1)
  }

  function Failed(disk: Disk): Disk {
    disk.(clock := disk.clock + 1)
  }

  // ---- The witness ----------------------------------------------------------------------------

  function Marked(facts: Option<Facts>, directory: Path): Option<Facts> {
    if facts.None? then None else Some(facts.value.(directories := facts.value.directories + {directory}))
  }

  function Unmarked(facts: Option<Facts>, directory: Path): Option<Facts> {
    if facts.None? then None else Some(facts.value.(directories := facts.value.directories - {directory}))
  }

  function WithArtifact(facts: Option<Facts>, path: Path, artifact: Artifact): Option<Facts> {
    if facts.None? then None else Some(facts.value.(artifacts := facts.value.artifacts[path := artifact]))
  }

  function WithoutArtifact(facts: Option<Facts>, path: Path): Option<Facts> {
    if facts.None? then None else Some(facts.value.(artifacts := facts.value.artifacts - {path}))
  }

  predicate IsMarked(facts: Option<Facts>, directory: Path) {
    facts.Some? && directory in facts.value.directories
  }

  predicate EdgeKnown(facts: Option<Facts>, directory: Path, name: string) {
    facts.Some? && (directory in facts.value.directories || (directory, name) in facts.value.edges)
  }

  function ArtifactOf(payload: Bytes, stat: nat, sha: Hash): Artifact {
    Artifact(sha(payload), |payload|, stat)
  }

  /** The witness holds this very file, by digest, length and stat. */
  predicate Recorded(j: Journal, path: Path, payload: Bytes, sha: Hash)
    requires path in j.disk.nodes && j.disk.nodes[path].File?
  {
    && j.facts.Some?
    && path in j.facts.value.artifacts
    && j.facts.value.artifacts[path] == ArtifactOf(payload, j.disk.nodes[path].stat, sha)
  }

  /** The edges of the directories on the way to a file just read back. */
  function Remembered(facts: Facts, path: Path): Facts {
    facts.(edges := facts.edges + set i | 0 <= i < |path| - 1 :: (path[..i], path[i]))
  }

  // ---- Creating directories -------------------------------------------------------------------

  /** Sync a directory; on success the witness may remember it. */
  function SyncStep(j: Journal, directory: Path, fails: Faults): Effect {
    if fails(j.disk.clock) then Effect(j.(disk := Failed(j.disk)), false)
    else Effect(Journal(Synced(j.disk, directory), Marked(j.facts, directory)), true)
  }

  function MakeStep(j: Journal, path: Path, fails: Faults): Effect {
    if fails(j.disk.clock) then Effect(j.(disk := Failed(j.disk)), false)
    else Effect(j.(disk := Made(j.disk, path)), true)
  }

  /** One component of `ensure_directories`: `path` inside its parent. */
  function EnsureOne(j: Journal, path: Path, fails: Faults): Effect
    requires path != []
  {
    if path in j.disk.nodes then
      if !j.disk.nodes[path].Directory? then Effect(j, false)
      else if EdgeKnown(j.facts, Parent(path), path[|path| - 1]) then Effect(j, true)
      else SyncStep(j, Parent(path), fails)
    else
      var made := MakeStep(j.(facts := Unmarked(j.facts, Parent(path))), path, fails);
      if !made.ok then made else SyncStep(made.journal, Parent(path), fails)
  }

  function Ensure(j: Journal, path: Path, n: nat, fails: Faults): Effect
    requires n <= |path|
  {
    if n == 0 then Effect(j, true)
    else EnsureNext(Ensure(j, path, n - 1, fails), path[..n], fails)
  }

  function EnsureNext(before: Effect, path: Path, fails: Faults): Effect
    requires path != []
  {
    if before.ok then EnsureOne(before.journal, path, fails) else before
  }

  predicate Named(path: Path) {
    path != [] && forall i :: 0 <= i < |path| ==> path[i] != "" && path[i] != "." && path[i] != ".." && '\\' !in path[i]
  }

  predicate CrossesSymlink(nodes: map<Path, Node>, path: Path) {
    exists i :: 0 <= i <= |path| && SymlinkAt(nodes, path[..i])
  }

  predicate SymlinkAt(nodes: map<Path, Node>, path: Path) {
    path in nodes && nodes[path].Symlink?
  }

  /** `ensure_directories`, after its path checks. */
  function EnsureDirectories(j: Journal, path: Path, fails: Faults): Effect {
    if !Named(path) || CrossesSymlink(j.disk.nodes, path) then Effect(j, false) else Ensure(j, path, |path|, fails)
  }

  /** The checks and the parent directory of a file about to be written. */
  function Approach(j: Journal, path: Path, fails: Faults): Effect {
    if !Named(path) || CrossesSymlink(j.disk.nodes, path) then Effect(j, false)
    else if |path| == 1 then Effect(j, true)
    else EnsureDirectories(j, Parent(path), fails)
  }

  // ---- Immutable artifacts --------------------------------------------------------------------

  /** Write a synced temporary file, rename it and sync the directory. */
  function AtomicWrite(disk: Disk, path: Path, payload: Bytes, fails: Faults): (Disk, bool)
    requires path != []
  {
    if fails(disk.clock) then (Failed(disk), false)
    else
      var replaced := Replaced(disk, path, payload);
      if fails(replaced.clock) then (Failed(replaced), false) else (Synced(replaced, Parent(path)), true)
  }

  function Create(j: Journal, path: Path, payload: Bytes, sha: Hash, fails: Faults): Effect
    requires path != []
  {
    var (disk, ok) := AtomicWrite(j.disk, path, payload, fails);
    var unmarked := Unmarked(j.facts, Parent(path));
    if !ok then Effect(Journal(disk, unmarked), false)
    else
      var artifact := ArtifactOf(payload, j.disk.clock, sha);
      Effect(Journal(disk, WithArtifact(Marked(unmarked, Parent(path)), path, artifact)), true)
  }

  /** The file is there already: sync what the witness does not vouch for. */
  function Confirm(j: Journal, path: Path, payload: Bytes, sha: Hash, fails: Faults): Effect
    requires path != [] && path in j.disk.nodes && j.disk.nodes[path].File?
  {
    if Recorded(j, path, payload, sha) then Effect(j, true)
    else
      var dropped := j.(facts := WithoutArtifact(j.facts, path));
      if j.disk.nodes[path].bytes != payload then Effect(dropped, false)
      else if fails(j.disk.clock) then Effect(dropped.(disk := Failed(j.disk)), false)
      else ConfirmName(dropped.(disk := FileSynced(j.disk, path)), path, ArtifactOf(payload, j.disk.nodes[path].stat, sha), fails)
  }

  function ConfirmName(j: Journal, path: Path, artifact: Artifact, fails: Faults): Effect
    requires path != []
  {
    var named := if IsMarked(j.facts, Parent(path)) then Effect(j, true) else SyncStep(j, Parent(path), fails);
    if !named.ok then named
    else Effect(named.journal.(facts := WithArtifact(named.journal.facts, path, artifact)), true)
  }

  function Settle(j: Journal, path: Path, payload: Bytes, sha: Hash, fails: Faults): Effect
    requires path != []
  {
    if path !in j.disk.nodes then Create(j, path, payload, sha, fails)
    else if !j.disk.nodes[path].File? then Effect(j, false)
    else Confirm(j, path, payload, sha, fails)
  }

  function WriteImmutable(j: Journal, path: Path, payload: Bytes, sha: Hash, fails: Faults): Effect {
    var approach := Approach(j, path, fails);
    if !approach.ok then approach else Settle(approach.journal, path, payload, sha, fails)
  }

  // ---- Heads ----------------------------------------------------------------------------------

  /** Replace a head; a failed directory sync after the rename is reported as indeterminate. */
  function Publish(disk: Disk, path: Path, payload: Bytes, fails: Faults): (Disk, bool)
    requires path != []
  {
    if (path in disk.nodes && !disk.nodes[path].File?) || fails(disk.clock) then (Failed(disk), false)
    else
      var replaced := Replaced(disk, path, payload);
      if fails(replaced.clock) then (Failed(replaced).(unreconciled := disk.unreconciled + {path}), false)
      else (Synced(replaced, Parent(path)).(unreconciled := disk.unreconciled - {path}), true)
  }

  function PublishHead(j: Journal, path: Path, payload: Bytes, fails: Faults): Effect {
    var approach := Approach(j, path, fails);
    if !approach.ok then approach
    else
      var (disk, ok) := Publish(approach.journal.disk, path, payload, fails);
      Effect(approach.journal.(disk := disk), ok)
  }

  // ---- What holds at every step ---------------------------------------------------------------

  /** Names hang below directories, and only existing names are durable. */
  ghost predicate Tree(disk: Disk) {
    && [] in disk.nodes && disk.nodes[[]].Directory?
    && (forall path :: path in disk.nodes && path != [] ==> Parent(path) in disk.nodes && disk.nodes[Parent(path)].Directory?)
    && disk.durable <= disk.nodes.Keys
    && (forall path :: path in disk.unreconciled ==> path in disk.nodes && disk.nodes[path].File?)
    && (forall path :: path in disk.nodes && disk.nodes[path].File? ==> disk.nodes[path].stat < disk.clock)
  }

  /** Every directory name above `path` is durable. */
  ghost predicate Reached(disk: Disk, path: Path) {
    forall i :: 0 < i < |path| ==> path[..i] in disk.durable
  }

  /** No file appears before the directories above it are durable. */
  ghost predicate FilesReached(disk: Disk) {
    forall path :: path in disk.nodes && disk.nodes[path].File? ==> Reached(disk, path)
  }

  ghost predicate Vouched(disk: Disk, path: Path) {
    path in disk.durable || path in disk.unreconciled
  }

  ghost predicate MarkHolds(disk: Disk, directory: Path) {
    && directory in disk.nodes && disk.nodes[directory].Directory?
    && forall path :: path in disk.nodes && path != [] && Parent(path) == directory ==> Vouched(disk, path)
  }

  ghost predicate ArtifactHolds(disk: Disk, path: Path, artifact: Artifact, sha: Hash) {
    && artifact.stat < disk.clock
    && (path in disk.nodes && disk.nodes[path].File? && disk.nodes[path].stat == artifact.stat ==>
          && artifact == ArtifactOf(disk.nodes[path].bytes, artifact.stat, sha)
          && disk.nodes[path].synced && Vouched(disk, path))
  }

  ghost predicate EdgeHolds(disk: Disk, path: Path) {
    path in disk.durable && path in disk.nodes && disk.nodes[path].Directory?
  }

  /** Everything the witness remembers is true, heads left indeterminate excepted. */
  ghost predicate FactsHold(disk: Disk, facts: Facts, sha: Hash) {
    && (forall directory :: directory in facts.directories ==> MarkHolds(disk, directory))
    && (forall edge :: edge in facts.edges ==> EdgeHolds(disk, edge.0 + [edge.1]))
    && (forall path :: path in facts.artifacts ==> ArtifactHolds(disk, path, facts.artifacts[path], sha))
  }

  ghost predicate Sound(j: Journal, sha: Hash) {
    Tree(j.disk) && FilesReached(j.disk) && (j.facts.Some? ==> FactsHold(j.disk, j.facts.value, sha))
  }

  /** The file's bytes and every name from the root down to it are synced. */
  ghost predicate Secured(disk: Disk, path: Path, payload: Bytes) {
    && path in disk.nodes && disk.nodes[path].File? && disk.nodes[path].bytes == payload && disk.nodes[path].synced
    && path in disk.durable && Reached(disk, path)
  }

  predicate SameNode(a: Node, b: Node) {
    if a.File? then b.File? && b.bytes == a.bytes && b.stat == a.stat && (a.synced ==> b.synced) else a == b
  }

  /** What no call takes away, the names in `heads` excepted. */
  ghost predicate Later(a: Disk, b: Disk, heads: set<Path>) {
    && (forall path :: path in a.nodes && (path !in heads || a.nodes[path].Directory?) ==>
          && path in b.nodes && SameNode(a.nodes[path], b.nodes[path])
          && (path in a.durable ==> path in b.durable))
    && b.unreconciled <= a.unreconciled + heads
    && a.clock <= b.clock
  }

  // ---- Every system call keeps the invariant ----------------------------------------------------

  lemma LaterChains(a: Disk, b: Disk, c: Disk, heads: set<Path>)
    requires Later(a, b, heads) && Later(b, c, heads)
    ensures Later(a, c, heads)
  {
  }

  /** A change below unmarked directories that only adds keeps the facts. */
  ghost predicate Extends(a: Disk, b: Disk, facts: Facts) {
    && Later(a, b, {})
    && a.unreconciled <= b.unreconciled
    && (forall path :: path in b.nodes && path !in a.nodes ==>
          path != [] && Parent(path) !in facts.directories && (b.nodes[path].File? ==> b.nodes[path].stat >= a.clock))
  }

  lemma FactsExtend(a: Disk, b: Disk, facts: Facts, sha: Hash)
    requires FactsHold(a, facts, sha) && Extends(a, b, facts)
    ensures FactsHold(b, facts, sha)
  {
    forall directory | directory in facts.directories
      ensures MarkHolds(b, directory)
    {
      assert MarkHolds(a, directory);
    }
    forall edge | edge in facts.edges
      ensures EdgeHolds(b, edge.0 + [edge.1])
    {
      assert EdgeHolds(a, edge.0 + [edge.1]);
    }
    forall path | path in facts.artifacts
      ensures ArtifactHolds(b, path, facts.artifacts[path], sha)
    {
      assert ArtifactHolds(a, path, facts.artifacts[path], sha);
    }
  }

  lemma FailedKeeps(j: Journal, sha: Hash)
    requires Sound(j, sha)
    ensures Sound(j.(disk := Failed(j.disk)), sha) && Later(j.disk, Failed(j.disk), {})
  {
    if j.facts.Some? {
      FactsExtend(j.disk, Failed(j.disk), j.facts.value, sha);
    }
    ReachedStays(j.disk, Failed(j.disk));
  }

  lemma ReachedStays(a: Disk, b: Disk)
    requires FilesReached(a) && Later(a, b, {}) && Tree(a)
    ensures forall path :: path in a.nodes && a.nodes[path].File? ==> Reached(b, path)
  {
    forall path | path in a.nodes && a.nodes[path].File?
      ensures Reached(b, path)
    {
      assert Reached(a, path);
    }
  }

  lemma UnmarkedKeeps(j: Journal, directory: Path, sha: Hash)
    requires Sound(j, sha)
    ensures Sound(j.(facts := Unmarked(j.facts, directory)), sha)
  {
  }

  lemma SyncKeeps(j: Journal, directory: Path, fails: Faults, sha: Hash)
    requires Sound(j, sha) && directory in j.disk.nodes && j.disk.nodes[directory].Directory?
    ensures var after := SyncStep(j, directory, fails);
      && Sound(after.journal, sha) && Later(j.disk, after.journal.disk, {})
      && (after.ok ==> after.journal.disk == Synced(j.disk, directory))
  {
    if fails(j.disk.clock) {
      FailedKeeps(j, sha);
    } else {
      var disk := Synced(j.disk, directory);
      ReachedStays(j.disk, disk);
      if j.facts.Some? {
        FactsExtend(j.disk, disk, j.facts.value, sha);
        assert MarkHolds(disk, directory);
      }
    }
  }

  lemma MakeKeeps(j: Journal, path: Path, fails: Faults, sha: Hash)
    requires Sound(j, sha) && path !in j.disk.nodes && path != [] && !IsMarked(j.facts, Parent(path))
    requires Parent(path) in j.disk.nodes && j.disk.nodes[Parent(path)].Directory?
    ensures var after := MakeStep(j, path, fails);
      && Sound(after.journal, sha) && Later(j.disk, after.journal.disk, {})
      && after.journal.facts == j.facts
      && (after.ok ==> path in after.journal.disk.nodes && after.journal.disk.nodes[path].Directory?)
  {
    if fails(j.disk.clock) {
      FailedKeeps(j, sha);
    } else {
      var disk := Made(j.disk, path);
      ReachedStays(j.disk, disk);
      if j.facts.Some? {
        FactsExtend(j.disk, disk, j.facts.value, sha);
      }
    }
  }

  // ---- ensure_directories -----------------------------------------------------------------------

  /** The invariant holds after a call, and nothing durable was lost. */
  ghost predicate Keeps(j: Journal, after: Effect, sha: Hash) {
    Sound(after.journal, sha) && Later(j.disk, after.journal.disk, {}) && (after.journal.facts.Some? <==> j.facts.Some?)
  }

  ghost predicate DirectoryAt(disk: Disk, path: Path) {
    path in disk.nodes && disk.nodes[path].Directory?
  }

  /** A component that is there now is a directory with a durable name. */
  lemma EnsureOneKeeps(j: Journal, path: Path, fails: Faults, sha: Hash)
    requires Sound(j, sha) && path != [] && DirectoryAt(j.disk, Parent(path))
    ensures Keeps(j, EnsureOne(j, path, fails), sha)
    ensures var after := EnsureOne(j, path, fails);
      after.ok ==> DirectoryAt(after.journal.disk, path) && path in after.journal.disk.durable
  {
    var parent := Parent(path);
    if path in j.disk.nodes {
      if j.disk.nodes[path].Directory? {
        if EdgeKnown(j.facts, parent, path[|path| - 1]) {
          assert parent + [path[|path| - 1]] == path;
          if IsMarked(j.facts, parent) {
            assert MarkHolds(j.disk, parent);
          } else {
            assert EdgeHolds(j.disk, parent + [path[|path| - 1]]);
          }
        } else {
          SyncKeeps(j, parent, fails, sha);
        }
      }
    } else {
      var unmarked := j.(facts := Unmarked(j.facts, parent));
      UnmarkedKeeps(j, parent, sha);
      MakeKeeps(unmarked, path, fails, sha);
      var made := MakeStep(unmarked, path, fails);
      if made.ok {
        SyncKeeps(made.journal, parent, fails, sha);
        LaterChains(j.disk, made.journal.disk, SyncStep(made.journal, parent, fails).journal.disk, {});
      }
    }
  }

  /** Every prefix of the path up to length `n` is a durable directory name. */
  ghost predicate PathDurable(disk: Disk, path: Path, n: nat)
    requires n <= |path|
  {
    forall i :: 0 < i <= n ==> DirectoryAt(disk, path[..i]) && path[..i] in disk.durable
  }

  lemma PathStays(a: Disk, b: Disk, path: Path, n: nat)
    requires n <= |path| && PathDurable(a, path, n) && Later(a, b, {})
    ensures PathDurable(b, path, n)
  {
    forall i | 0 < i <= n
      ensures DirectoryAt(b, path[..i]) && path[..i] in b.durable
    {
      assert path[..i] in a.nodes;
    }
  }

  lemma {:induction false} EnsureKeeps(j: Journal, path: Path, n: nat, fails: Faults, sha: Hash)
    requires Sound(j, sha) && n <= |path|
    ensures Keeps(j, Ensure(j, path, n, fails), sha)
    ensures Ensure(j, path, n, fails).ok ==> PathDurable(Ensure(j, path, n, fails).journal.disk, path, n)
  {
    if n > 0 {
      EnsureKeeps(j, path, n - 1, fails, sha);
      var before := Ensure(j, path, n - 1, fails);
      if before.ok {
        assert Parent(path[..n]) == path[..n - 1];
        assert DirectoryAt(before.journal.disk, path[..n - 1]) by {
          if n == 1 { assert path[..0] == []; }
        }
        EnsureOneKeeps(before.journal, path[..n], fails, sha);
        EnsureAfter(j, before.journal, path, n, fails, sha);
      }
    }
  }

  lemma EnsureAfter(j: Journal, before: Journal, path: Path, n: nat, fails: Faults, sha: Hash)
    requires 0 < n <= |path| && PathDurable(before.disk, path, n - 1) && Later(j.disk, before.disk, {})
    requires Keeps(before, EnsureOne(before, path[..n], fails), sha)
    requires var after := EnsureOne(before, path[..n], fails);
      after.ok ==> DirectoryAt(after.journal.disk, path[..n]) && path[..n] in after.journal.disk.durable
    ensures var after := EnsureOne(before, path[..n], fails);
      Later(j.disk, after.journal.disk, {}) && (after.ok ==> PathDurable(after.journal.disk, path, n))
  {
    var after := EnsureOne(before, path[..n], fails);
    LaterChains(j.disk, before.disk, after.journal.disk, {});
    PathStays(before.disk, after.journal.disk, path, n - 1);
  }

  /** A normal return leaves the whole directory path durable, whatever was skipped. */
  lemma EnsureDirectoriesDurable(j: Journal, path: Path, fails: Faults, sha: Hash)
    requires Sound(j, sha)
    ensures Keeps(j, EnsureDirectories(j, path, fails), sha)
    ensures var after := EnsureDirectories(j, path, fails); after.ok ==> PathDurable(after.journal.disk, path, |path|)
  {
    EnsureKeeps(j, path, |path|, fails, sha);
  }

  lemma ApproachKeeps(j: Journal, path: Path, fails: Faults, sha: Hash)
    requires Sound(j, sha)
    ensures Keeps(j, Approach(j, path, fails), sha)
    ensures var after := Approach(j, path, fails);
      after.ok ==> path != [] && Reached(after.journal.disk, path) && DirectoryAt(after.journal.disk, Parent(path))
  {
    if Named(path) {
      var after := Approach(j, path, fails);
      if |path| > 1 {
        EnsureDirectoriesDurable(j, Parent(path), fails, sha);
        if after.ok {
          ReachedFrom(after.journal.disk, path);
        }
      } else {
        assert Parent(path) == [];
      }
    }
  }

  lemma ReachedFrom(disk: Disk, path: Path)
    requires |path| > 1 && PathDurable(disk, Parent(path), |path| - 1)
    ensures Reached(disk, path) && DirectoryAt(disk, Parent(path))
  {
    forall i | 0 < i < |path|
      ensures path[..i] in disk.durable
    {
      assert Parent(path)[..i] == path[..i];
    }
    assert Parent(path)[..|path| - 1] == Parent(path);
  }

  // ---- write_immutable --------------------------------------------------------------------------

  lemma ReplaceKeeps(disk: Disk, facts: Option<Facts>, path: Path, payload: Bytes, sha: Hash)
    requires Sound(Journal(disk, facts), sha) && path !in disk.nodes && path != [] && !IsMarked(facts, Parent(path))
    requires DirectoryAt(disk, Parent(path)) && Reached(disk, path)
    ensures Sound(Journal(Replaced(disk, path, payload), facts), sha) && Later(disk, Replaced(disk, path, payload), {})
  {
    var after := Replaced(disk, path, payload);
    ReachedStays(disk, after);
    if facts.Some? {
      FactsExtend(disk, after, facts.value, sha);
    }
  }

  lemma ArtifactKeeps(j: Journal, path: Path, artifact: Artifact, sha: Hash)
    requires Sound(j, sha) && ArtifactHolds(j.disk, path, artifact, sha)
    ensures Sound(j.(facts := WithArtifact(j.facts, path, artifact)), sha)
  {
  }

  lemma DropKeeps(j: Journal, path: Path, sha: Hash)
    requires Sound(j, sha)
    ensures Sound(j.(facts := WithoutArtifact(j.facts, path)), sha)
  {
  }

  lemma CreateKeeps(j: Journal, path: Path, payload: Bytes, sha: Hash, fails: Faults)
    requires Sound(j, sha) && path != [] && path !in j.disk.nodes && DirectoryAt(j.disk, Parent(path)) && Reached(j.disk, path)
    ensures Keeps(j, Create(j, path, payload, sha, fails), sha)
    ensures var after := Create(j, path, payload, sha, fails); after.ok ==> Secured(after.journal.disk, path, payload)
  {
    var parent := Parent(path);
    var start := j.(facts := Unmarked(j.facts, parent));
    UnmarkedKeeps(j, parent, sha);
    if fails(j.disk.clock) {
      FailedKeeps(start, sha);
    } else {
      var replaced := Replaced(j.disk, path, payload);
      ReplaceKeeps(j.disk, start.facts, path, payload, sha);
      var renamed := Journal(replaced, start.facts);
      SyncKeeps(renamed, parent, fails, sha);
      var synced := SyncStep(renamed, parent, fails);
      LaterChains(j.disk, replaced, synced.journal.disk, {});
      if synced.ok {
        ArtifactKeeps(synced.journal, path, ArtifactOf(payload, j.disk.clock, sha), sha);
      }
    }
  }

  lemma FileSyncKeeps(j: Journal, path: Path, sha: Hash)
    requires Sound(j, sha) && path in j.disk.nodes && j.disk.nodes[path].File?
    ensures Sound(j.(disk := FileSynced(j.disk, path)), sha) && Later(j.disk, FileSynced(j.disk, path), {})
  {
    var disk := FileSynced(j.disk, path);
    ReachedStays(j.disk, disk);
    if j.facts.Some? {
      FactsExtend(j.disk, disk, j.facts.value, sha);
    }
  }

  /** The witness lets the call skip the sync of the file's name. */
  predicate Trusted(j: Journal, path: Path, payload: Bytes, sha: Hash)
    requires path != []
  {
    IsMarked(j.facts, Parent(path)) || (path in j.disk.nodes && j.disk.nodes[path].File? && Recorded(j, path, payload, sha))
  }

  ghost predicate SyncedFile(disk: Disk, path: Path, payload: Bytes) {
    path in disk.nodes && disk.nodes[path].File? && disk.nodes[path].bytes == payload && disk.nodes[path].synced
  }

  lemma ConfirmNameKeeps(j: Journal, path: Path, payload: Bytes, sha: Hash, fails: Faults)
    requires Sound(j, sha) && path != [] && SyncedFile(j.disk, path, payload)
    ensures var after := ConfirmName(j, path, ArtifactOf(payload, j.disk.nodes[path].stat, sha), fails);
      && Keeps(j, after, sha)
      && (after.ok ==>
            && SyncedFile(after.journal.disk, path, payload)
            && (path in after.journal.disk.durable <==> path in j.disk.durable || !IsMarked(j.facts, Parent(path))))
  {
    var parent := Parent(path);
    var artifact := ArtifactOf(payload, j.disk.nodes[path].stat, sha);
    if IsMarked(j.facts, parent) {
      assert MarkHolds(j.disk, parent);
      ArtifactKeeps(j, path, artifact, sha);
    } else {
      SyncKeeps(j, parent, fails, sha);
      var synced := SyncStep(j, parent, fails);
      if synced.ok {
        ArtifactKeeps(synced.journal, path, artifact, sha);
      }
    }
  }

  lemma ConfirmKeeps(j: Journal, path: Path, payload: Bytes, sha: Hash, fails: Faults)
    requires Sound(j, sha) && Injective(sha) && path != [] && path in j.disk.nodes && j.disk.nodes[path].File?
    ensures var after := Confirm(j, path, payload, sha, fails);
      && Keeps(j, after, sha)
      && (after.ok ==>
            && SyncedFile(after.journal.disk, path, payload)
            && (path in after.journal.disk.durable <==> path in j.disk.durable || !Trusted(j, path, payload, sha)))
  {
    if Recorded(j, path, payload, sha) {
      assert ArtifactHolds(j.disk, path, j.facts.value.artifacts[path], sha);
    } else {
      var dropped := j.(facts := WithoutArtifact(j.facts, path));
      DropKeeps(j, path, sha);
      FailedKeeps(dropped, sha);
      if j.disk.nodes[path].bytes == payload && !fails(j.disk.clock) {
        FileSyncKeeps(dropped, path, sha);
        var synced := dropped.(disk := FileSynced(j.disk, path));
        ConfirmNameKeeps(synced, path, payload, sha, fails);
        LaterChains(j.disk, synced.disk, Confirm(j, path, payload, sha, fails).journal.disk, {});
      }
    }
  }

  lemma SettleKeeps(j: Journal, path: Path, payload: Bytes, sha: Hash, fails: Faults)
    requires Sound(j, sha) && Injective(sha) && path != [] && DirectoryAt(j.disk, Parent(path)) && Reached(j.disk, path)
    ensures var after := Settle(j, path, payload, sha, fails);
      && Keeps(j, after, sha)
      && (after.ok ==>
            && SyncedFile(after.journal.disk, path, payload)
            && (Secured(after.journal.disk, path, payload) <==> NameSafe(j, path, payload, sha)))
  {
    if path !in j.disk.nodes {
      CreateKeeps(j, path, payload, sha, fails);
    } else if j.disk.nodes[path].File? {
      ConfirmKeeps(j, path, payload, sha, fails);
      var after := Confirm(j, path, payload, sha, fails);
      ReachedStays(j.disk, after.journal.disk);
    }
  }

  /** The call does not skip the sync of a name that needs one. */
  predicate NameSafe(j: Journal, path: Path, payload: Bytes, sha: Hash)
    requires path != []
  {
    path !in j.disk.nodes || path in j.disk.durable || !Trusted(j, path, payload, sha)
  }

  /** Approaching a file touches neither its name nor what the witness holds about it. */
  predicate Untouched(a: Journal, b: Journal, path: Path)
    requires path != []
  {
    && (path in a.disk.nodes <==> path in b.disk.nodes)
    && (path in a.disk.nodes ==> a.disk.nodes[path] == b.disk.nodes[path])
    && (path in a.disk.durable <==> path in b.disk.durable)
    && (IsMarked(a.facts, Parent(path)) <==> IsMarked(b.facts, Parent(path)))
    && (a.facts.Some? <==> b.facts.Some?)
    && (a.facts.Some? ==> a.facts.value.artifacts == b.facts.value.artifacts)
  }

  lemma EnsureOneAbove(j: Journal, above: Path, path: Path, fails: Faults)
    requires above != [] && |above| < |path|
    ensures Untouched(j, EnsureOne(j, above, fails).journal, path)
  {
    assert |Parent(above)| < |Parent(path)|;
  }

  lemma {:induction false} EnsureAbove(j: Journal, directory: Path, n: nat, path: Path, fails: Faults)
    requires n <= |directory| < |path|
    ensures Untouched(j, Ensure(j, directory, n, fails).journal, path)
  {
    if n > 0 {
      EnsureAbove(j, directory, n - 1, path, fails);
      var before := Ensure(j, directory, n - 1, fails);
      if before.ok {
        EnsureOneAbove(before.journal, directory[..n], path, fails);
      }
    }
  }

  lemma ApproachAbove(j: Journal, path: Path, fails: Faults)
    requires path != []
    ensures Untouched(j, Approach(j, path, fails).journal, path)
  {
    if |path| > 1 {
      EnsureAbove(j, Parent(path), |path| - 1, path, fails);
    }
  }

  lemma WriteKeeps(j: Journal, path: Path, payload: Bytes, sha: Hash, fails: Faults)
    requires Sound(j, sha) && Injective(sha)
    ensures Keeps(j, WriteImmutable(j, path, payload, sha, fails), sha)
  {
    ApproachKeeps(j, path, fails, sha);
    var approach := Approach(j, path, fails);
    if approach.ok {
      SettleKeeps(approach.journal, path, payload, sha, fails);
      LaterChains(j.disk, approach.journal.disk, Settle(approach.journal, path, payload, sha, fails).journal.disk, {});
    }
  }

  /** A normal return has synced the bytes always, and secured the file exactly when the
      witness did not vouch for a name that is not durable. */
  lemma WriteSecures(j: Journal, path: Path, payload: Bytes, sha: Hash, fails: Faults)
    requires Sound(j, sha) && Injective(sha) && WriteImmutable(j, path, payload, sha, fails).ok
    ensures path != []
    ensures var after := WriteImmutable(j, path, payload, sha, fails).journal.disk;
      SyncedFile(after, path, payload) && (Secured(after, path, payload) <==> NameSafe(j, path, payload, sha))
  {
    ApproachKeeps(j, path, fails, sha);
    var approach := Approach(j, path, fails);
    ApproachAbove(j, path, fails);
    SettleKeeps(approach.journal, path, payload, sha, fails);
  }

  /** The only names the witness wrongly vouches for are heads reported as indeterminate. */
  lemma OnlyHeadsUnsafe(j: Journal, path: Path, payload: Bytes, sha: Hash)
    requires Sound(j, sha) && path != [] && path !in j.disk.unreconciled
    ensures NameSafe(j, path, payload, sha)
  {
    if path in j.disk.nodes && Trusted(j, path, payload, sha) {
      if IsMarked(j.facts, Parent(path)) {
        assert MarkHolds(j.disk, Parent(path));
      } else {
        assert ArtifactHolds(j.disk, path, j.facts.value.artifacts[path], sha);
      }
    }
  }

  // ---- publish_head -----------------------------------------------------------------------------

  /** Facts survive the replacement of a head that ends up durable or unreconciled. */
  lemma PublishFacts(a: Disk, b: Disk, facts: Facts, path: Path, sha: Hash)
    requires Tree(a) && FactsHold(a, facts, sha) && path != [] && !DirectoryAt(a, path)
    requires Later(a, b, {path}) && Vouched(b, path) && path in b.nodes && b.nodes[path].File? && b.nodes[path].stat >= a.clock
    requires b.nodes.Keys == a.nodes.Keys + {path} && a.unreconciled - {path} <= b.unreconciled
    ensures FactsHold(b, facts, sha)
  {
    forall directory | directory in facts.directories
      ensures MarkHolds(b, directory)
    {
      assert MarkHolds(a, directory);
    }
    forall edge | edge in facts.edges
      ensures EdgeHolds(b, edge.0 + [edge.1])
    {
      assert EdgeHolds(a, edge.0 + [edge.1]);
    }
    forall other | other in facts.artifacts
      ensures ArtifactHolds(b, other, facts.artifacts[other], sha)
    {
      assert ArtifactHolds(a, other, facts.artifacts[other], sha);
    }
  }

  /** Replacing a file's name cannot take a directory name away. */
  lemma PublishReached(a: Disk, b: Disk, path: Path)
    requires Tree(a) && FilesReached(a) && Reached(a, path) && !DirectoryAt(a, path) && Later(a, b, {path})
    requires forall other :: other in b.nodes ==> other in a.nodes || other == path
    ensures FilesReached(b)
  {
    forall other | other in b.nodes && b.nodes[other].File?
      ensures Reached(b, other)
    {
      assert Reached(a, other) by {
        if other != path { assert a.nodes[other].File?; }
      }
      forall i | 0 < i < |other|
        ensures other[..i] in b.durable
      {
        PrefixIsDirectory(a, b, other, i, path);
      }
    }
  }

  lemma PrefixIsDirectory(a: Disk, b: Disk, other: Path, i: nat, path: Path)
    requires Tree(a) && 0 < i < |other| && !DirectoryAt(a, path) && other[..i] in a.durable
    requires other in a.nodes || other == path
    requires Later(a, b, {path})
    ensures other[..i] in b.durable
  {
    if other != path {
      AncestorsAreDirectories(a, other, i);
    } else {
      assert other[..i] != path;
    }
  }

  lemma {:induction false} AncestorsAreDirectories(disk: Disk, path: Path, i: nat)
    requires Tree(disk) && path in disk.nodes && i < |path|
    ensures DirectoryAt(disk, path[..i])
    decreases |path|
  {
    if i < |path| - 1 {
      AncestorsAreDirectories(disk, Parent(path), i);
      assert Parent(path)[..i] == path[..i];
    }
  }

  lemma PublishKeeps(j: Journal, path: Path, payload: Bytes, fails: Faults, sha: Hash)
    requires Sound(j, sha) && path != [] && DirectoryAt(j.disk, Parent(path)) && Reached(j.disk, path)
    ensures var after := Publish(j.disk, path, payload, fails);
      && Sound(j.(disk := after.0), sha) && Later(j.disk, after.0, {path})
      && (after.1 ==> Secured(after.0, path, payload))
  {
    if fails(j.disk.clock) || (path in j.disk.nodes && !j.disk.nodes[path].File?) {
      FailedKeeps(j, sha);
    } else {
      RenamedKeeps(j, path, payload, fails, sha);
    }
  }

  lemma RenamedKeeps(j: Journal, path: Path, payload: Bytes, fails: Faults, sha: Hash)
    requires Sound(j, sha) && path != [] && DirectoryAt(j.disk, Parent(path)) && Reached(j.disk, path)
    requires !fails(j.disk.clock) && (path in j.disk.nodes ==> j.disk.nodes[path].File?)
    ensures var after := Publish(j.disk, path, payload, fails);
      && Sound(j.(disk := after.0), sha) && Later(j.disk, after.0, {path})
      && (after.1 ==> Secured(after.0, path, payload))
  {
    var after := Publish(j.disk, path, payload, fails);
    PublishReached(j.disk, after.0, path);
    if j.facts.Some? {
      PublishFacts(j.disk, after.0, j.facts.value, path, sha);
    }
  }

  /** A published head is secured; a call that raises leaves the invariant in place. */
  lemma PublishHeadKeeps(j: Journal, path: Path, payload: Bytes, fails: Faults, sha: Hash)
    requires Sound(j, sha)
    ensures var after := PublishHead(j, path, payload, fails);
      && Sound(after.journal, sha) && Later(j.disk, after.journal.disk, {path})
      && (after.ok ==> Secured(after.journal.disk, path, payload))
  {
    ApproachKeeps(j, path, fails, sha);
    var approach := Approach(j, path, fails);
    if approach.ok {
      PublishKeeps(approach.journal, path, payload, fails, sha);
    }
  }

  // ---- remember_verified_file_path --------------------------------------------------------------

  /** The edges above a file that can be read are durable already. */
  lemma RememberKeeps(j: Journal, path: Path, sha: Hash)
    requires Sound(j, sha) && j.facts.Some? && path in j.disk.nodes && j.disk.nodes[path].File?
    ensures Sound(j.(facts := Some(Remembered(j.facts.value, path))), sha)
  {
    assert Reached(j.disk, path);
    forall i | 0 <= i < |path| - 1
      ensures EdgeHolds(j.disk, path[..i] + [path[i]])
    {
      assert path[..i] + [path[i]] == path[..i + 1];
      AncestorsAreDirectories(j.disk, path, i + 1);
    }
  }

  // ---- Whole transactions -----------------------------------------------------------------------

  /** One call sharing the transaction's witness; `Verify` reads a file back and remembers its path. */
  datatype Call = Directories(path: Path) | Write(path: Path, payload: Bytes) | Head(path: Path, payload: Bytes) | Verify(path: Path)

  function Invoke(j: Journal, call: Call, sha: Hash, fails: Faults): Effect {
    match call
    case Directories(path) => EnsureDirectories(j, path, fails)
    case Write(path, payload) => WriteImmutable(j, path, payload, sha, fails)
    case Head(path, payload) => PublishHead(j, path, payload, fails)
    case Verify(path) =>
      if path !in j.disk.nodes || !j.disk.nodes[path].File? then Effect(j, false)
      else if j.facts.None? then Effect(j, true)
      else Effect(j.(facts := Some(Remembered(j.facts.value, path))), true)
  }

  /** The state after the first `n` calls; a caller may go on after a call that raised. */
  function After(j: Journal, calls: seq<Call>, n: nat, sha: Hash, fails: Faults): Journal
    requires n <= |calls|
  {
    if n == 0 then j else Invoke(After(j, calls, n - 1, sha, fails), calls[n - 1], sha, fails).journal
  }

  function Heads(calls: seq<Call>): (heads: set<Path>)
    ensures forall i :: 0 <= i < |calls| && calls[i].Head? ==> calls[i].path in heads
  {
    set i | 0 <= i < |calls| && calls[i].Head? :: calls[i].path
  }

  lemma InvokeKeeps(j: Journal, call: Call, heads: set<Path>, sha: Hash, fails: Faults)
    requires Sound(j, sha) && Injective(sha) && (call.Head? ==> call.path in heads)
    ensures Sound(Invoke(j, call, sha, fails).journal, sha) && Later(j.disk, Invoke(j, call, sha, fails).journal.disk, heads)
  {
    match call
    case Directories(path) => EnsureDirectoriesDurable(j, path, fails, sha);
    case Write(path, payload) => WriteKeeps(j, path, payload, sha, fails);
    case Head(path, payload) => PublishHeadKeeps(j, path, payload, fails, sha);
    case Verify(path) =>
      if path in j.disk.nodes && j.disk.nodes[path].File? && j.facts.Some? {
        RememberKeeps(j, path, sha);
      }
  }

  lemma {:induction false} RunKeeps(j: Journal, calls: seq<Call>, i: nat, n: nat, sha: Hash, fails: Faults)
    requires Sound(j, sha) && Injective(sha) && i <= n <= |calls|
    ensures Sound(After(j, calls, n, sha, fails), sha)
    ensures Later(After(j, calls, i, sha, fails).disk, After(j, calls, n, sha, fails).disk, Heads(calls))
    decreases n
  {
    if n > 0 {
      RunKeeps(j, calls, if i < n then i else n - 1, n - 1, sha, fails);
      var before := After(j, calls, n - 1, sha, fails);
      InvokeKeeps(before, calls[n - 1], Heads(calls), sha, fails);
      if i < n {
        LaterChains(After(j, calls, i, sha, fails).disk, before.disk, After(j, calls, n, sha, fails).disk, Heads(calls));
      }
    }
  }

  lemma SecuredStays(a: Disk, b: Disk, path: Path, payload: Bytes, heads: set<Path>)
    requires Tree(a) && Secured(a, path, payload) && Later(a, b, heads) && path !in heads
    ensures Secured(b, path, payload)
  {
    forall i | 0 < i < |path|
      ensures path[..i] in b.durable
    {
      AncestorsAreDirectories(a, path, i);
    }
  }

  lemma WrittenStays(j: Journal, call: Call, next: Disk, end: Disk, heads: set<Path>, sha: Hash, fails: Faults)
    requires Sound(j, sha) && Injective(sha) && call.Write? && Invoke(j, call, sha, fails).ok
    requires Invoke(j, call, sha, fails).journal.disk == next
    requires call.path !in heads && call.path !in j.disk.unreconciled
    requires Later(next, end, heads)
    ensures Secured(end, call.path, call.payload)
  {
    WriteSecures(j, call.path, call.payload, sha, fails);
    OnlyHeadsUnsafe(j, call.path, call.payload, sha);
    WriteKeeps(j, call.path, call.payload, sha, fails);
    SecuredStays(next, end, call.path, call.payload, heads);
  }

  lemma NextIsInvoke(j: Journal, calls: seq<Call>, i: nat, sha: Hash, fails: Faults)
    requires i < |calls|
    ensures After(j, calls, i + 1, sha, fails) == Invoke(After(j, calls, i, sha, fails), calls[i], sha, fails).journal
  {
  }

  lemma RunBefore(j: Journal, calls: seq<Call>, i: nat, sha: Hash, fails: Faults)
    requires Sound(j, sha) && Injective(sha) && i <= |calls|
    ensures Sound(After(j, calls, i, sha, fails), sha)
    ensures After(j, calls, i, sha, fails).disk.unreconciled <= j.disk.unreconciled + Heads(calls)
  {
    RunKeeps(j, calls, 0, i, sha, fails);
  }

  lemma RunAfter(j: Journal, calls: seq<Call>, i: nat, next: Journal, sha: Hash, fails: Faults)
    requires Sound(j, sha) && Injective(sha) && i < |calls|
    requires next == Invoke(After(j, calls, i, sha, fails), calls[i], sha, fails).journal
    ensures Later(next.disk, After(j, calls, |calls|, sha, fails).disk, Heads(calls))
  {
    NextIsInvoke(j, calls, i, sha, fails);
    RunKeeps(j, calls, i + 1, |calls|, sha, fails);
  }

  /** Over every sequence of calls and failures, a file whose write returned stays secured
      to the end, unless its path is also used for heads. */
  lemma RunSecures(j: Journal, calls: seq<Call>, i: nat, sha: Hash, fails: Faults)
    requires Sound(j, sha) && Injective(sha) && i < |calls| && calls[i].Write?
    requires calls[i].path !in Heads(calls) + j.disk.unreconciled
    requires Invoke(After(j, calls, i, sha, fails), calls[i], sha, fails).ok
    ensures Secured(After(j, calls, |calls|, sha, fails).disk, calls[i].path, calls[i].payload)
  {
    RunBefore(j, calls, i, sha, fails);
    var before := After(j, calls, i, sha, fails);
    var next := Invoke(before, calls[i], sha, fails).journal;
    RunAfter(j, calls, i, next, sha, fails);
    WrittenStays(before, calls[i], next.disk, After(j, calls, |calls|, sha, fails).disk,
      Heads(calls), sha, fails);
  }

  const NoFacts := Facts({}, {}, map[])

  /** A transaction starts with an empty witness on a workspace earlier ones left behind. */
  lemma FreshWitness(disk: Disk, sha: Hash)
    requires Tree(disk) && FilesReached(disk)
    ensures Sound(Journal(disk, Some(NoFacts)), sha) && Sound(Journal(disk, None), sha)
  {
  }

  const EmptyDisk := Disk(map[[] := Directory], {}, {}, 0)

  const RootMarked := Facts({[]}, {}, map[])

  /** A path used for a head and then for an artifact: the fourth system call fails, and the
      write of the same bytes returns although nothing ever synced the name. */
  lemma HeadThenArtifact(payload: Bytes, sha: Hash, fails: Faults)
    requires forall n :: fails(n) <==> n == 3
    ensures var made := EnsureDirectories(Journal(EmptyDisk, Some(NoFacts)), ["d"], fails).journal;
      var left := PublishHead(made, ["h"], payload, fails).journal;
      var after := WriteImmutable(left, ["h"], payload, sha, fails);
      after.ok && ["h"] !in after.journal.disk.durable
  {
    FirstDirectory(fails);
    var made := EnsureDirectories(Journal(EmptyDisk, Some(NoFacts)), ["d"], fails).journal;
    IndeterminateHead(made, payload, fails);
    SkippedName(PublishHead(made, ["h"], payload, fails).journal, payload, sha, fails);
  }

  lemma FirstDirectory(fails: Faults)
    requires !fails(0) && !fails(1)
    ensures var made := EnsureDirectories(Journal(EmptyDisk, Some(NoFacts)), ["d"], fails);
      && made.ok && made.journal.disk.clock == 2 && ["h"] !in made.journal.disk.nodes && [] in made.journal.disk.nodes
      && made.journal.disk.nodes[[]].Directory?
      && made.journal.facts == Some(RootMarked)
  {
    var start := Journal(EmptyDisk, Some(NoFacts));
    assert ["d"][..1] == ["d"] && Parent(["d"]) == [] && ["d"][..0] == [];
    assert Ensure(start, ["d"], 1, fails) == EnsureOne(start, ["d"], fails);
    assert NoFacts.directories - {[]} + {[]} == RootMarked.directories;
    assert !CrossesSymlink(EmptyDisk.nodes, ["d"]);
  }

  lemma IndeterminateHead(j: Journal, payload: Bytes, fails: Faults)
    requires j.disk.clock == 2 && ["h"] !in j.disk.nodes && [] in j.disk.nodes && j.disk.nodes[[]].Directory? && !fails(2) && fails(3)
    ensures var left := PublishHead(j, ["h"], payload, fails);
      && !left.ok && left.journal.facts == j.facts && left.journal.disk.clock == 4
      && ["h"] in left.journal.disk.nodes && left.journal.disk.nodes[["h"]] == File(payload, true, 2)
      && [] in left.journal.disk.nodes && left.journal.disk.nodes[[]].Directory?
      && ["h"] !in left.journal.disk.durable
  {
    assert ["h"][..1] == ["h"] && ["h"][..0] == [];
    assert !CrossesSymlink(j.disk.nodes, ["h"]);
  }

  lemma SkippedName(j: Journal, payload: Bytes, sha: Hash, fails: Faults)
    requires ["h"] in j.disk.nodes && j.disk.nodes[["h"]].File? && j.disk.nodes[["h"]].bytes == payload
    requires [] in j.disk.nodes && j.disk.nodes[[]].Directory?
    requires j.facts == Some(RootMarked) && !fails(j.disk.clock) && ["h"] !in j.disk.durable
    ensures WriteImmutable(j, ["h"], payload, sha, fails).ok
    ensures ["h"] !in WriteImmutable(j, ["h"], payload, sha, fails).journal.disk.durable
  {
    assert ["h"][..1] == ["h"] && ["h"][..0] == [] && Parent(["h"]) == [];
    assert !CrossesSymlink(j.disk.nodes, ["h"]);
  }
}
