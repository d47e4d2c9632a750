/** When journal calls succeed. */
module Writes {
  // Also what an accepted call has written; all on the workspace before the call and the system calls made in it.

  import opened Common
  import opened Journal

  // ---- The conditions -------------------------------------------------------------------------------------

  /** Every component of the path is a plain name. */
  predicate Spelled(path: Path) {
    |path| > 0 && forall name :: name in path ==> name !in ["", ".", ".."] && '\\' !in name
  }

  predicate Room(disk: Disk, path: Path) {
    path !in disk.nodes || disk.nodes[path] == Directory
  }

  /** Each of the first `n` directories of the path is there or can be made. */
  predicate Clear(disk: Disk, path: Path, n: nat)
    requires n <= |path|
  {
    forall i :: 0 < i <= n ==> Room(disk, path[..i])
  }

  /** No system call between two moments failed. */
  ghost predicate Quiet(fails: Faults, from: nat, to: nat) {
    forall t :: from <= t < to ==> !fails(t)
  }

  /** The target is absent or a file of exactly these bytes. */
  predicate Fits(disk: Disk, path: Path, payload: Bytes) {
    path in disk.nodes ==> disk.nodes[path].File? && disk.nodes[path].bytes == payload
  }

  /** The first `n` directories of the path are there, and every other name is as it was. */
  ghost predicate Grown(a: map<Path, Node>, b: map<Path, Node>, path: Path, n: nat)
    requires n <= |path|
  {
    && (forall p :: p in a ==> p in b && b[p] == a[p])
    && (forall i :: 0 < i <= n ==> path[..i] in b && b[path[..i]] == Directory)
    && (forall p :: p in b && p !in a ==> exists i :: 0 < i <= n && p == path[..i])
  }

  // ---- Directories ----------------------------------------------------------------------------------------

  lemma EnsureOneWorks(j: Journal, path: Path, fails: Faults)
    requires path != []
    ensures var after := EnsureOne(j, path, fails);
      && j.disk.clock <= after.journal.disk.clock
      && (after.ok <==> Room(j.disk, path) && Quiet(fails, j.disk.clock, after.journal.disk.clock))
      && (after.ok ==> after.journal.disk.nodes == j.disk.nodes[path := Directory])
  {
    var after := EnsureOne(j, path, fails);
    if after.ok && path in j.disk.nodes { assert j.disk.nodes[path := Directory] == j.disk.nodes; }
  }

  /** What is known of the first `n` directories of a path. */
  ghost predicate Works(j: Journal, path: Path, n: nat, after: Effect, fails: Faults)
    requires n <= |path|
  {
    && j.disk.clock <= after.journal.disk.clock
    && (after.ok <==> Clear(j.disk, path, n) && Quiet(fails, j.disk.clock, after.journal.disk.clock))
    && (after.ok ==> Grown(j.disk.nodes, after.journal.disk.nodes, path, n))
  }

  lemma WorksOn(j: Journal, path: Path, n: nat, before: Effect, after: Effect, fails: Faults)
    requires n < |path| && Works(j, path, n, before, fails)
    requires before.ok ==> after == EnsureOne(before.journal, path[..n + 1], fails)
    requires !before.ok ==> after == before
    ensures Works(j, path, n + 1, after, fails)
  {
    if before.ok {
      EnsureOneWorks(before.journal, path[..n + 1], fails);
      var next := path[..n + 1];
      assert forall i :: 0 < i <= n ==> |path[..i]| < |next|;
      assert Room(before.journal.disk, next) <==> Room(j.disk, next);
      if after.ok {
        assert next in after.journal.disk.nodes;
      }
    } else {
      assert Clear(j.disk, path, n + 1) ==> Clear(j.disk, path, n);
    }
  }

  lemma {:induction false} EnsureWorks(j: Journal, path: Path, n: nat, fails: Faults)
    requires n <= |path|
    ensures Works(j, path, n, Ensure(j, path, n, fails), fails)
  {
    if n > 0 {
      EnsureWorks(j, path, n - 1, fails);
      hide Works, EnsureOne;
      WorksOn(j, path, n - 1, Ensure(j, path, n - 1, fails), Ensure(j, path, n, fails), fails);
    }
  }

  /** No directory on a clear way is a symbolic link. */
  lemma ClearCrossesNone(disk: Disk, path: Path, n: nat)
    requires Tree(disk) && n <= |path| && Clear(disk, path, n) && |path| <= n + 1
    requires n < |path| ==> !SymlinkAt(disk.nodes, path)
    ensures !CrossesSymlink(disk.nodes, path)
  {
    forall i | 0 <= i <= |path| ensures !SymlinkAt(disk.nodes, path[..i]) {
      if i == 0 {
        assert path[..0] == [];
      } else if i <= n {
        assert Room(disk, path[..i]);
      } else {
        assert path[..i] == path;
      }
    }
  }

  /** `ensure_directories` returns normally exactly when the path is spelled in plain names, every prefix is
      absent or a directory, and none of its system calls fails; it then has made just what was missing. */
  lemma DirectoriesAccepted(j: Journal, path: Path, fails: Faults, sha: Hash)
    requires Sound(j, sha)
    ensures var after := EnsureDirectories(j, path, fails);
      && j.disk.clock <= after.journal.disk.clock
      && (after.ok <==> Spelled(path) && Clear(j.disk, path, |path|) && Quiet(fails, j.disk.clock, after.journal.disk.clock))
      && (after.ok ==> Grown(j.disk.nodes, after.journal.disk.nodes, path, |path|))
  {
    EnsureWorks(j, path, |path|, fails);
    assert path[..|path|] == path;
    if Clear(j.disk, path, |path|) { ClearCrossesNone(j.disk, path, |path|); }
    assert Spelled(path) <==> Named(path) by { SpelledIsNamed(path); }
  }

  lemma SpelledIsNamed(path: Path)
    ensures Spelled(path) <==> Named(path)
  {
    if Named(path) {
      forall name | name in path ensures name !in ["", ".", ".."] && '\\' !in name {
        var i :| 0 <= i < |path| && path[i] == name;
      }
    }
    if Spelled(path) {
      forall i | 0 <= i < |path| ensures path[i] != "" && path[i] != "." && path[i] != ".." && '\\' !in path[i] {
        assert path[i] in path;
      }
    }
  }

  lemma ApproachAccepted(j: Journal, path: Path, fails: Faults, sha: Hash)
    requires Sound(j, sha) && (path != [] ==> !SymlinkAt(j.disk.nodes, path))
    ensures var after := Approach(j, path, fails);
      && j.disk.clock <= after.journal.disk.clock
      && (after.ok <==> Spelled(path) && Clear(j.disk, path, |path| - 1) && Quiet(fails, j.disk.clock, after.journal.disk.clock))
      && (after.ok ==> Grown(j.disk.nodes, after.journal.disk.nodes, path, |path| - 1))
  {
    SpelledIsNamed(path);
    if Named(path) {
      ApproachSpelled(j, path, fails, sha);
    }
  }

  lemma ApproachSpelled(j: Journal, path: Path, fails: Faults, sha: Hash)
    requires Sound(j, sha) && !SymlinkAt(j.disk.nodes, path) && Named(path) && Spelled(path)
    ensures var after := Approach(j, path, fails);
      && j.disk.clock <= after.journal.disk.clock
      && (after.ok <==> Clear(j.disk, path, |path| - 1) && Quiet(fails, j.disk.clock, after.journal.disk.clock))
      && (after.ok ==> Grown(j.disk.nodes, after.journal.disk.nodes, path, |path| - 1))
  {
    assert Tree(j.disk);
    hide Sound, Tree, Named, EnsureDirectories, CrossesSymlink;
    var parent := Parent(path);
    if Clear(j.disk, path, |path| - 1) { ClearCrossesNone(j.disk, path, |path| - 1); }
    assert forall i :: 0 <= i <= |parent| ==> parent[..i] == path[..i];
    if |path| > 1 {
      DirectoriesAccepted(j, parent, fails, sha);
      assert Spelled(parent) by { assert forall name :: name in parent ==> name in path; }
    }
  }

  // ---- Files ----------------------------------------------------------------------------------------------

  /** The file is there with these bytes, synced; one that was there is the same file. */
  ghost predicate Holds(a: map<Path, Node>, b: map<Path, Node>, path: Path, payload: Bytes) {
    && path in b && b[path].File? && b[path].bytes == payload && b[path].synced
    && (path in a ==> a[path].File? && a[path].bytes == payload && a[path].stat == b[path].stat)
  }

  /** Nothing but the file changed. */
  predicate OnlyAt(a: map<Path, Node>, b: map<Path, Node>, path: Path) {
    path in b && a == (if path in a then b[path := a[path]] else b - {path})
  }

  lemma CreateWorks(j: Journal, path: Path, payload: Bytes, sha: Hash, fails: Faults)
    requires path != [] && path !in j.disk.nodes
    ensures var after := Create(j, path, payload, sha, fails);
      && j.disk.clock <= after.journal.disk.clock
      && (after.ok <==> Quiet(fails, j.disk.clock, after.journal.disk.clock))
      && (after.ok ==> Holds(j.disk.nodes, after.journal.disk.nodes, path, payload) && OnlyAt(j.disk.nodes, after.journal.disk.nodes, path))
  {
  }

  lemma ConfirmWorks(j: Journal, path: Path, payload: Bytes, sha: Hash, fails: Faults)
    requires Sound(j, sha) && Injective(sha) && path != [] && path in j.disk.nodes && j.disk.nodes[path].File?
    ensures var after := Confirm(j, path, payload, sha, fails);
      && j.disk.clock <= after.journal.disk.clock
      && (after.ok <==> j.disk.nodes[path].bytes == payload && Quiet(fails, j.disk.clock, after.journal.disk.clock))
      && (after.ok ==> Holds(j.disk.nodes, after.journal.disk.nodes, path, payload) && OnlyAt(j.disk.nodes, after.journal.disk.nodes, path))
  {
    var after := Confirm(j, path, payload, sha, fails);
    if Recorded(j, path, payload, sha) {
      assert ArtifactHolds(j.disk, path, j.facts.value.artifacts[path], sha);
    }
    if after.ok { assert j.disk.nodes == after.journal.disk.nodes[path := j.disk.nodes[path]]; }
  }

  lemma SettleWorks(j: Journal, path: Path, payload: Bytes, sha: Hash, fails: Faults)
    requires Sound(j, sha) && Injective(sha) && path != []
    ensures var after := Settle(j, path, payload, sha, fails);
      && j.disk.clock <= after.journal.disk.clock
      && (after.ok <==> Fits(j.disk, path, payload) && Quiet(fails, j.disk.clock, after.journal.disk.clock))
      && (after.ok ==> Holds(j.disk.nodes, after.journal.disk.nodes, path, payload) && OnlyAt(j.disk.nodes, after.journal.disk.nodes, path))
  {
    hide Sound, Injective, Create, Confirm, Holds, OnlyAt;
    if path !in j.disk.nodes {
      CreateWorks(j, path, payload, sha, fails);
    } else if j.disk.nodes[path].File? {
      ConfirmWorks(j, path, payload, sha, fails);
    }
  }

  /** The directories above the file are there, the file holds the payload, and every other name is as it was. */
  ghost predicate Written(a: map<Path, Node>, b: map<Path, Node>, path: Path, payload: Bytes)
    requires path != []
  {
    && Holds(a, b, path, payload)
    && (forall p :: p in a && p != path ==> p in b && b[p] == a[p])
    && (forall i :: 0 < i < |path| ==> path[..i] in b && b[path[..i]] == Directory)
    && (forall p :: p in b && p !in a && p != path ==> exists i :: 0 < i < |path| && p == path[..i])
  }

  lemma WrittenBy(a: map<Path, Node>, b: map<Path, Node>, c: map<Path, Node>, path: Path, payload: Bytes)
    requires path != [] && Grown(a, b, path, |path| - 1) && Holds(b, c, path, payload) && OnlyAt(b, c, path)
    ensures Written(a, c, path, payload)
  {
    assert forall i :: 0 < i < |path| ==> path[..i] != path;
    assert forall p :: p != path ==> (p in b <==> p in c) && (p in b ==> b[p] == c[p]);
    if path in a { assert path in b; }
  }

  /** `write_immutable` returns normally exactly when the path is spelled in plain names, every directory above it
      is absent or there, the target is absent or a file of exactly the payload, and none of its system calls fails;
      it then has made the missing directories and the file, and nothing else. */
  lemma WriteAccepted(j: Journal, path: Path, payload: Bytes, sha: Hash, fails: Faults)
    requires Sound(j, sha) && Injective(sha)
    ensures var after := WriteImmutable(j, path, payload, sha, fails);
      && (after.ok <==> Spelled(path) && Clear(j.disk, path, |path| - 1) && Fits(j.disk, path, payload)
                        && Quiet(fails, j.disk.clock, after.journal.disk.clock))
      && (after.ok ==> Written(j.disk.nodes, after.journal.disk.nodes, path, payload))
  {
    hide Settle, Sound, Injective, Quiet, Grown, Holds, OnlyAt, Written;
    SpelledIsNamed(path);
    if path != [] && SymlinkAt(j.disk.nodes, path) {
      assert path[..|path|] == path;
    } else {
      ApproachAccepted(j, path, fails, sha);
      var approach := Approach(j, path, fails);
      if approach.ok {
        ApproachAbove(j, path, fails);
        ApproachKeeps(j, path, fails, sha);
        SettleWorks(approach.journal, path, payload, sha, fails);
        var after := Settle(approach.journal, path, payload, sha, fails);
        QuietTogether(fails, j.disk.clock, approach.journal.disk.clock, after.journal.disk.clock);
        if after.ok { WrittenBy(j.disk.nodes, approach.journal.disk.nodes, after.journal.disk.nodes, path, payload); }
      }
    }
  }

  lemma QuietTogether(fails: Faults, a: nat, b: nat, c: nat)
    requires a <= b <= c
    ensures Quiet(fails, a, c) <==> Quiet(fails, a, b) && Quiet(fails, b, c)
  {
  }

  // ---- Heads ----------------------------------------------------------------------------------------------

  /** The target is absent or any file. */
  predicate Replaceable(disk: Disk, path: Path) {
    path in disk.nodes ==> disk.nodes[path].File?
  }

  lemma PublishWorks(disk: Disk, path: Path, payload: Bytes, fails: Faults)
    requires path != []
    ensures var (after, ok) := Publish(disk, path, payload, fails);
      && disk.clock <= after.clock
      && (ok <==> Replaceable(disk, path) && Quiet(fails, disk.clock, after.clock))
      && (ok ==> after.nodes == disk.nodes[path := after.nodes[path]] && Fits(after, path, payload))
  {
  }

  /** `publish_head` returns normally exactly when the path is spelled in plain names, every directory above it is
      absent or there, the target is absent or a file, and none of its system calls fails; the head then holds the
      payload. */
  lemma HeadAccepted(j: Journal, path: Path, payload: Bytes, fails: Faults, sha: Hash)
    requires Sound(j, sha)
    ensures var after := PublishHead(j, path, payload, fails);
      && (after.ok <==> Spelled(path) && Clear(j.disk, path, |path| - 1) && Replaceable(j.disk, path)
                        && Quiet(fails, j.disk.clock, after.journal.disk.clock))
      && (after.ok ==> path in after.journal.disk.nodes && Fits(after.journal.disk, path, payload))
  {
    hide Publish, Sound, Quiet, Grown, Fits;
    SpelledIsNamed(path);
    if path != [] && SymlinkAt(j.disk.nodes, path) {
      assert path[..|path|] == path;
    } else {
      ApproachAccepted(j, path, fails, sha);
      var approach := Approach(j, path, fails);
      if approach.ok {
        ApproachAbove(j, path, fails);
        PublishWorks(approach.journal.disk, path, payload, fails);
        var after := Publish(approach.journal.disk, path, payload, fails).0;
        QuietTogether(fails, j.disk.clock, approach.journal.disk.clock, after.clock);
      }
    }
  }

  // ---- What the witness saves -----------------------------------------------------------------------------

  /** Component `i` of the path is a directory whose name the witness knows. */
  ghost predicate LearntAt(j: Journal, path: Path, i: nat)
    requires i < |path|
  {
    && j.facts.Some? && path[..i + 1] in j.disk.nodes && j.disk.nodes[path[..i + 1]] == Directory
    && (path[..i] in j.facts.value.directories || (path[..i], path[i]) in j.facts.value.edges)
  }

  ghost predicate Learnt(j: Journal, path: Path, n: nat)
    requires n <= |path|
  {
    forall i :: 0 <= i < n ==> LearntAt(j, path, i)
  }

  lemma {:induction false} LearntSkips(j: Journal, path: Path, n: nat, fails: Faults)
    requires n <= |path| && Learnt(j, path, n)
    ensures Ensure(j, path, n, fails) == Effect(j, true)
  {
    if n > 0 {
      LearntSkips(j, path, n - 1, fails);
      assert LearntAt(j, path, n - 1);
      assert Parent(path[..n]) == path[..n - 1];
    }
  }

  lemma LearnsOne(j: Journal, path: Path, n: nat, fails: Faults)
    requires n < |path| && j.facts.Some? && Learnt(j, path, n) && EnsureOne(j, path[..n + 1], fails).ok
    ensures EnsureOne(j, path[..n + 1], fails).journal.facts.Some?
    ensures Learnt(EnsureOne(j, path[..n + 1], fails).journal, path, n + 1)
  {
    var next := path[..n + 1];
    assert Parent(next) == path[..n] && next[n] == path[n];
    var after := EnsureOne(j, next, fails).journal;
    forall i | 0 <= i < n ensures LearntAt(after, path, i) {
      assert LearntAt(j, path, i);
      assert |path[..i]| < |path[..n]| && |path[..i + 1]| < |next|;
    }
    assert LearntAt(after, path, n);
  }

  lemma {:induction false} Learns(j: Journal, path: Path, n: nat, fails: Faults)
    requires n <= |path| && j.facts.Some? && Ensure(j, path, n, fails).ok
    ensures Ensure(j, path, n, fails).journal.facts.Some? && Learnt(Ensure(j, path, n, fails).journal, path, n)
  {
    if n > 0 {
      Learns(j, path, n - 1, fails);
      LearnsOne(Ensure(j, path, n - 1, fails).journal, path, n - 1, fails);
    }
  }

  /** With a witness a path made once costs no system call the second time, whatever would fail. */
  lemma SecondMakeIsFree(j: Journal, path: Path, fails: Faults, again: Faults, sha: Hash)
    requires Sound(j, sha) && j.facts.Some? && EnsureDirectories(j, path, fails).ok
    ensures var made := EnsureDirectories(j, path, fails).journal; EnsureDirectories(made, path, again) == Effect(made, true)
  {
    var made := EnsureDirectories(j, path, fails).journal;
    Learns(j, path, |path|, fails);
    LearntSkips(made, path, |path|, again);
    EnsureDirectoriesDurable(j, path, fails, sha);
    DirectoriesAccepted(j, path, fails, sha);
    hide Sound, Learnt, Named, Ensure;
    assert Clear(made.disk, path, |path|);
    assert path[..|path|] == path;
    ClearCrossesNone(made.disk, path, |path|);
  }

  lemma FreeParent(j: Journal, path: Path, again: Faults)
    requires Tree(j.disk) && Spelled(path) && Learnt(j, path, |path| - 1) && !SymlinkAt(j.disk.nodes, path)
    ensures Approach(j, path, again) == Effect(j, true)
  {
    assert |path| > 0;
    hide Tree, Named, Spelled, CrossesSymlink, Ensure;
    SpelledIsNamed(path);
    assert Clear(j.disk, path, |path| - 1) by {
      forall i | 0 < i <= |path| - 1 ensures Room(j.disk, path[..i]) { assert LearntAt(j, path, i - 1); }
    }
    ClearCrossesNone(j.disk, path, |path| - 1);
    if |path| > 1 {
      var parent := Parent(path);
      assert Spelled(parent) by { SpelledIsNamed(parent); ParentSpelled(path); }
      SpelledIsNamed(parent);
      forall i | 0 <= i < |parent| ensures LearntAt(j, parent, i) {
        assert LearntAt(j, path, i) && parent[..i] == path[..i] && parent[..i + 1] == path[..i + 1];
      }
      LearntSkips(j, parent, |parent|, again);
      assert Clear(j.disk, parent, |parent|) by {
        forall i | 0 < i <= |parent| ensures Room(j.disk, parent[..i]) { assert LearntAt(j, parent, i - 1); }
      }
      ClearCrossesNone(j.disk, parent, |parent|);
    }
  }

  lemma ParentSpelled(path: Path)
    requires Spelled(path) && |path| > 1
    ensures Spelled(Parent(path))
  {
    assert forall name :: name in Parent(path) ==> name in path;
  }

  lemma ApproachLearns(j: Journal, path: Path, fails: Faults, sha: Hash)
    requires Sound(j, sha) && j.facts.Some? && Approach(j, path, fails).ok
    ensures path != [] && Learnt(Approach(j, path, fails).journal, path, |path| - 1)
  {
    hide Sound, CrossesSymlink, Ensure;
    if |path| > 1 {
      var parent := Parent(path);
      Learns(j, parent, |parent|, fails);
      var after := Approach(j, path, fails).journal;
      forall i | 0 <= i < |path| - 1 ensures LearntAt(after, path, i) {
        assert LearntAt(after, parent, i) && parent[..i] == path[..i] && parent[..i + 1] == path[..i + 1];
      }
    }
  }

  /** Settling a file unlearns no directory above it, and the witness then vouches for the file. */
  lemma SettleLearns(j: Journal, path: Path, payload: Bytes, sha: Hash, fails: Faults)
    requires j.facts.Some? && path != [] && Learnt(j, path, |path| - 1) && Settle(j, path, payload, sha, fails).ok
    ensures var after := Settle(j, path, payload, sha, fails).journal;
      && Learnt(after, path, |path| - 1)
      && path in after.disk.nodes && after.disk.nodes[path].File? && Recorded(after, path, payload, sha)
  {
    var after := Settle(j, path, payload, sha, fails).journal;
    forall i | 0 <= i < |path| - 1 ensures LearntAt(after, path, i) {
      assert LearntAt(j, path, i) && |path[..i + 1]| < |path|;
    }
  }

  /** With a witness a file written once costs no system call the second time, whatever would fail. */
  lemma SecondWriteIsFree(j: Journal, path: Path, payload: Bytes, sha: Hash, fails: Faults, again: Faults)
    requires Sound(j, sha) && Injective(sha) && j.facts.Some? && WriteImmutable(j, path, payload, sha, fails).ok
    ensures var after := WriteImmutable(j, path, payload, sha, fails).journal;
      WriteImmutable(after, path, payload, sha, again) == Effect(after, true)
  {
    hide Injective, Settle, Approach, Recorded;
    WriteAccepted(j, path, payload, sha, fails);
    WriteKeeps(j, path, payload, sha, fails);
    ApproachLearns(j, path, fails, sha);
    ApproachAbove(j, path, fails);
    var approach := Approach(j, path, fails).journal;
    SettleLearns(approach, path, payload, sha, fails);
    var after := WriteImmutable(j, path, payload, sha, fails).journal;
    assert Tree(after.disk);
    FreeParent(after, path, again);
    SettledAgain(after, path, payload, sha, again);
  }

  lemma SettledAgain(j: Journal, path: Path, payload: Bytes, sha: Hash, fails: Faults)
    requires path != [] && path in j.disk.nodes && j.disk.nodes[path].File? && Recorded(j, path, payload, sha)
    ensures Settle(j, path, payload, sha, fails) == Effect(j, true)
  {
  }

  /** After a file was read back and remembered, reaching its directory costs no system call. */
  lemma RememberedIsFree(j: Journal, path: Path, fails: Faults)
    requires Tree(j.disk) && j.facts.Some? && Spelled(path) && path in j.disk.nodes && !SymlinkAt(j.disk.nodes, path)
    ensures var known := j.(facts := Some(Remembered(j.facts.value, path)));
      Approach(known, path, fails) == Effect(known, true)
  {
    var known := j.(facts := Some(Remembered(j.facts.value, path)));
    forall i | 0 <= i < |path| - 1 ensures LearntAt(known, path, i) {
      AncestorsAreDirectories(j.disk, path, i + 1);
    }
    FreeParent(known, path, fails);
  }
}
