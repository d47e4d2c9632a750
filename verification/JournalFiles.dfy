/** The journal's file operations in place. */
module JournalFiles {
  // They mutate a workspace and a transaction's witness, each proved to take the step `Journal`
  // describes.

  import opened Common
  import opened Journal

  /** The file system below the workspace root; `fails` numbers the calls that raise. */
  class Workspace {
    var nodes: map<Path, Node>
    var durable: set<Path>
    var unreconciled: set<Path>
    var clock: nat
    const fails: Faults

    constructor (nodes: map<Path, Node>, durable: set<Path>, fails: Faults)
      ensures View() == Disk(nodes, durable, {}, 0) && this.fails == fails
    {
      this.nodes, this.durable, this.unreconciled, this.clock := nodes, durable, {}, 0;
      this.fails := fails;
    }

    function View(): Disk
      reads this
    {
      Disk(nodes, durable, unreconciled, clock)
    }

    method SyncDirectory(directory: Path) returns (ok: bool)
      modifies this
      ensures ok == !fails(old(clock))
      ensures View() == if ok then Synced(old(View()), directory) else Failed(old(View()))
    {
      ok := !fails(clock);
      clock := clock + 1;
      if ok {
        durable := durable + EntriesOf(nodes, directory);
      }
    }

    method MakeDirectory(path: Path) returns (ok: bool)
      modifies this
      ensures ok == !fails(old(clock))
      ensures View() == if ok then Made(old(View()), path) else Failed(old(View()))
    {
      ok := !fails(clock);
      clock := clock + 1;
      if ok {
        nodes, durable := nodes[path := Directory], durable - {path};
      }
    }

    method SyncFile(path: Path) returns (ok: bool)
      requires path in nodes && nodes[path].File?
      modifies this
      ensures ok == !fails(old(clock))
      ensures View() == if ok then FileSynced(old(View()), path) else Failed(old(View()))
    {
      ok := !fails(clock);
      clock := clock + 1;
      if ok {
        nodes := nodes[path := nodes[path].(synced := true)];
      }
    }

    /** A synced temporary file is renamed to `path`. */
    method Rename(path: Path, payload: Bytes) returns (ok: bool)
      modifies this
      ensures ok == !fails(old(clock))
      ensures View() == if ok then Replaced(old(View()), path, payload) else Failed(old(View()))
    {
      ok := !fails(clock);
      if ok {
        nodes, durable := nodes[path := File(payload, true, clock)], durable - {path};
      }
      clock := clock + 1;
    }

    method WriteAtomically(path: Path, payload: Bytes) returns (ok: bool)
      requires path != []
      modifies this
      ensures (View(), ok) == AtomicWrite(old(View()), path, payload, fails)
    {
      ok := Rename(path, payload);
      if ok {
        ok := SyncDirectory(Parent(path));
      }
    }

    /** Replace a state file; after the rename a failure leaves it unreconciled. */
    method PublishState(path: Path, payload: Bytes) returns (ok: bool)
      requires path != []
      modifies this
      ensures (View(), ok) == Publish(old(View()), path, payload, fails)
    {
      if path in nodes && !nodes[path].File? {
        clock := clock + 1;
        return false;
      }
      ok := Rename(path, payload);
      if ok {
        ok := SyncDirectory(Parent(path));
        unreconciled := if ok then unreconciled - {path} else unreconciled + {path};
      }
    }
  }

  /** What one transaction remembers as already synced. */
  class Witness {
    var directories: set<Path>
    var edges: set<(Path, string)>
    var artifacts: map<Path, Artifact>

    constructor ()
      ensures View() == NoFacts
    {
      directories, edges, artifacts := {}, {}, map[];
    }

    function View(): Facts
      reads this
    {
      Facts(directories, edges, artifacts)
    }

    /** Remember the directory edges above a file that was just read back. */
    method RememberVerifiedFilePath(path: Path)
      modifies this
      ensures View() == Remembered(old(View()), path)
    {
      var i := 0;
      while i < |path| - 1
        invariant 0 <= i && (i <= |path| - 1 || i == 0)
        invariant directories == old(directories) && artifacts == old(artifacts)
        invariant edges == old(edges) + set k | 0 <= k < i :: (path[..k], path[k])
      {
        edges := edges + {(path[..i], path[i])};
        i := i + 1;
      }
    }

    /** Whether the recorded artifact is this very file; a stale record is dropped. */
    method ArtifactIsDurable(path: Path, artifact: Artifact) returns (known: bool)
      modifies this
      ensures known == (path in old(artifacts) && old(artifacts)[path] == artifact)
      ensures directories == old(directories) && edges == old(edges)
      ensures artifacts == if known then old(artifacts) else old(artifacts) - {path}
    {
      if path !in artifacts { return false; }
      known := artifacts[path] == artifact;
      if !known {
        artifacts := artifacts - {path};
      }
    }
  }

  function FactsOf(held: Witness?): Option<Facts>
    reads held
  {
    if held == null then None else Some(held.View())
  }

  /** The abstract state of a workspace and the witness in use, if any. */
  function StateOf(workspace: Workspace, held: Witness?): Journal
    reads workspace, held
  {
    Journal(workspace.View(), FactsOf(held))
  }

  method SyncAndMark(workspace: Workspace, held: Witness?, directory: Path) returns (ok: bool)
    modifies workspace, held
    ensures Effect(StateOf(workspace, held), ok) == SyncStep(old(StateOf(workspace, held)), directory, workspace.fails)
  {
    ok := workspace.SyncDirectory(directory);
    if ok && held != null {
      held.directories := held.directories + {directory};
    }
  }

  method EnsureName(workspace: Workspace, held: Witness?, path: Path) returns (ok: bool)
    requires path != []
    modifies workspace, held
    ensures Effect(StateOf(workspace, held), ok) == EnsureOne(old(StateOf(workspace, held)), path, workspace.fails)
  {
    var current := Parent(path);
    if path in workspace.nodes {
      if !workspace.nodes[path].Directory? {
        return false;
      }
      if held == null || (current !in held.directories && (current, path[|path| - 1]) !in held.edges) {
        ok := SyncAndMark(workspace, held, current);
      } else {
        ok := true;
      }
    } else {
      if held != null {
        held.directories := held.directories - {current};
      }
      ok := workspace.MakeDirectory(path);
      if ok {
        ok := SyncAndMark(workspace, held, current);
      }
    }
  }

  /** Create a directory path and durably publish each of its names. */
  method MakeDirectories(workspace: Workspace, held: Witness?, path: Path) returns (ok: bool)
    modifies workspace, held
    ensures Effect(StateOf(workspace, held), ok) == EnsureDirectories(old(StateOf(workspace, held)), path, workspace.fails)
  {
    if !Named(path) || CrossesSymlink(workspace.nodes, path) {
      return false;
    }
    ok := true;
    var n := 0;
    while ok && n < |path|
      invariant n <= |path|
      invariant Effect(StateOf(workspace, held), ok) == Ensure(old(StateOf(workspace, held)), path, n, workspace.fails)
      invariant !ok ==> Ensure(old(StateOf(workspace, held)), path, |path|, workspace.fails) == Effect(StateOf(workspace, held), false)
    {
      ok := EnsureName(workspace, held, path[..n + 1]);
      n := n + 1;
      if !ok {
        EnsureStops(old(StateOf(workspace, held)), path, n, |path|, workspace.fails);
      }
    }
  }

  lemma {:induction false} EnsureStops(j: Journal, path: Path, n: nat, m: nat, fails: Faults)
    requires n <= m <= |path| && !Ensure(j, path, n, fails).ok
    ensures Ensure(j, path, m, fails) == Ensure(j, path, n, fails)
  {
    if n < m {
      EnsureStops(j, path, n, m - 1, fails);
    }
  }

  method ReachParent(workspace: Workspace, held: Witness?, path: Path) returns (ok: bool)
    modifies workspace, held
    ensures Effect(StateOf(workspace, held), ok) == Approach(old(StateOf(workspace, held)), path, workspace.fails)
  {
    if !Named(path) || CrossesSymlink(workspace.nodes, path) {
      return false;
    }
    if |path| == 1 {
      return true;
    }
    ok := MakeDirectories(workspace, held, Parent(path));
  }

  method CreateFile(workspace: Workspace, held: Witness?, path: Path, payload: Bytes, sha: Hash) returns (ok: bool)
    requires path != []
    modifies workspace, held
    ensures Effect(StateOf(workspace, held), ok)
         == Create(old(StateOf(workspace, held)), path, payload, sha, workspace.fails)
  {
    if held != null {
      held.directories := held.directories - {Parent(path)};
    }
    var stat := workspace.clock;
    ok := workspace.WriteAtomically(path, payload);
    if ok && held != null {
      held.directories := held.directories + {Parent(path)};
      held.artifacts := held.artifacts[path := ArtifactOf(payload, stat, sha)];
    }
  }

  method ConfirmFileName(workspace: Workspace, held: Witness?, path: Path, artifact: Artifact) returns (ok: bool)
    requires path != []
    modifies workspace, held
    ensures Effect(StateOf(workspace, held), ok)
         == ConfirmName(old(StateOf(workspace, held)), path, artifact, workspace.fails)
  {
    ok := true;
    if held == null || Parent(path) !in held.directories {
      ok := SyncAndMark(workspace, held, Parent(path));
    }
    if ok && held != null {
      held.artifacts := held.artifacts[path := artifact];
    }
  }

  method ConfirmFile(workspace: Workspace, held: Witness?, path: Path, payload: Bytes, sha: Hash) returns (ok: bool)
    requires path != [] && path in workspace.nodes && workspace.nodes[path].File?
    modifies workspace, held
    ensures Effect(StateOf(workspace, held), ok)
         == Confirm(old(StateOf(workspace, held)), path, payload, sha, workspace.fails)
  {
    var artifact := ArtifactOf(payload, workspace.nodes[path].stat, sha);
    if held != null {
      var known := held.ArtifactIsDurable(path, artifact);
      if known { return true; }
    }
    if workspace.nodes[path].bytes != payload { return false; }
    ok := workspace.SyncFile(path);
    if ok {
      ok := ConfirmFileName(workspace, held, path, artifact);
    }
  }

  /** Publish exact immutable bytes, syncing only what the witness does not vouch for. */
  method WriteArtifact(workspace: Workspace, held: Witness?, path: Path, payload: Bytes, sha: Hash) returns (ok: bool)
    modifies workspace, held
    ensures Effect(StateOf(workspace, held), ok)
         == WriteImmutable(old(StateOf(workspace, held)), path, payload, sha, workspace.fails)
  {
    ok := ReachParent(workspace, held, path);
    if ok {
      if path !in workspace.nodes {
        ok := CreateFile(workspace, held, path, payload, sha);
      } else if !workspace.nodes[path].File? {
        ok := false;
      } else {
        ok := ConfirmFile(workspace, held, path, payload, sha);
      }
    }
  }

  /** Atomically publish a small mutable state file. */
  method WriteHead(workspace: Workspace, held: Witness?, path: Path, payload: Bytes) returns (ok: bool)
    modifies workspace, held
    ensures Effect(StateOf(workspace, held), ok)
         == PublishHead(old(StateOf(workspace, held)), path, payload, workspace.fails)
  {
    ok := ReachParent(workspace, held, path);
    if ok {
      ok := workspace.PublishState(path, payload);
    }
  }
}
