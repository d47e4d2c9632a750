/** What a pinned head reads, file by file. */
module Histories {
  // A history is read exactly when every commit is a file of the recorded path, role, length and digest, numbered
  // from one and linked back to nothing.

  import opened Common
  import opened Journal
  import opened Writes
  import opened Chain

  /** No name on the way to the file is a symbolic link. */
  predicate Straight(disk: Disk, path: Path) {
    forall i :: 0 <= i <= |path| && path[..i] in disk.nodes ==> disk.nodes[path[..i]] != Symlink
  }

  /** The link names a file of its role, length and digest whose bytes decode to the commit. */
  predicate Reads(disk: Disk, link: Link, role: string, sha: Hash, decode: Decoder, commit: Commit) {
    && link.To?
    && var reference := link.reference;
       && reference.role == role && Spelled(reference.path) && Straight(disk, reference.path)
       && reference.path in disk.nodes && disk.nodes[reference.path].File?
       && var bytes := disk.nodes[reference.path].bytes;
          |bytes| == reference.length && sha(bytes) == reference.digest && decode(bytes) == Some(commit)
  }

  lemma StraightIs(disk: Disk, path: Path)
    ensures Straight(disk, path) <==> !CrossesSymlink(disk.nodes, path)
  {
    if CrossesSymlink(disk.nodes, path) {
      var i :| 0 <= i <= |path| && SymlinkAt(disk.nodes, path[..i]);
      assert path[..i] in disk.nodes && disk.nodes[path[..i]] == Symlink;
    } else {
      forall i | 0 <= i <= |path| && path[..i] in disk.nodes ensures disk.nodes[path[..i]] != Symlink {
        assert !SymlinkAt(disk.nodes, path[..i]);
      }
    }
  }

  lemma ReadsIs(disk: Disk, link: Link, role: string, sha: Hash, decode: Decoder, commit: Commit)
    ensures Reads(disk, link, role, sha, decode, commit) <==> ReadCommit(disk, link, role, sha, decode) == Some(commit)
  {
    if link.To? {
      StraightIs(disk, link.reference.path);
      SpelledIsNamed(link.reference.path);
    }
  }

  /** Oldest first: each commit is read through its successor's link, the newest through the head, and the first
      links to nothing. */
  ghost predicate History(disk: Disk, head: Head, commits: seq<Commit>, role: string, sha: Hash, decode: Decoder) {
    && head.sequence == Some(|commits|)
    && (forall k :: 0 <= k < |commits| ==> commits[k].sequence == Some(k + 1))
    && if |commits| == 0 then head.commit == Nothing
       else
         && commits[0].previous == Nothing && Reads(disk, head.commit, role, sha, decode, commits[|commits| - 1])
         && forall k :: 0 < k < |commits| ==> Reads(disk, commits[k].previous, role, sha, decode, commits[k - 1])
  }

  lemma ChainIsHistory(disk: Disk, head: Head, commits: seq<Commit>, role: string, sha: Hash, decode: Decoder)
    requires head.sequence == Some(|commits|)
    ensures History(disk, head, commits, role, sha, decode) <==> IsChain(disk, head.commit, commits, role, sha, decode)
  {
    hide Reads, ReadCommit;
    forall link, commit
      ensures Reads(disk, link, role, sha, decode, commit) <==> ReadCommit(disk, link, role, sha, decode) == Some(commit)
    {
      ReadsIs(disk, link, role, sha, decode, commit);
    }
    if History(disk, head, commits, role, sha, decode) {
      forall k | 0 <= k < |commits| ensures Placed(disk, head.commit, commits, k, role, sha, decode) {
        if k + 1 < |commits| { assert Reads(disk, commits[k + 1].previous, role, sha, decode, commits[k]); }
      }
    }
    if IsChain(disk, head.commit, commits, role, sha, decode) {
      forall k | 0 <= k < |commits|
        ensures commits[k].sequence == Some(k + 1)
        ensures Reads(disk, LinkTo(commits, head.commit, k), role, sha, decode, commits[k])
      {
        assert Placed(disk, head.commit, commits, k, role, sha, decode);
      }
      forall k | 0 < k < |commits| ensures Reads(disk, commits[k].previous, role, sha, decode, commits[k - 1]) {
        assert LinkTo(commits, head.commit, k - 1) == commits[k].previous;
      }
    }
  }

  /** Reading back from a head returns the commits exactly when they are a history of it, and so refuses the head
      exactly when it has none. */
  method ReadHistory(disk: Disk, head: Head, role: string, sha: Hash, decode: Decoder) returns (result: Option<seq<Commit>>)
    requires Injective(sha)
    ensures result.Some? ==> History(disk, head, result.value, role, sha, decode)
    ensures forall commits :: History(disk, head, commits, role, sha, decode) ==> result == Some(commits)
  {
    result := ReadChain(disk, head, role, sha, decode);
    forall commits | result == Some(commits) ensures History(disk, head, commits, role, sha, decode) {
      WalkLength(disk, head.commit, head.sequence.value, role, sha, decode);
      WalkIsChain(disk, head.commit, |commits|, commits, role, sha, decode);
      ChainIsHistory(disk, head, commits, role, sha, decode);
    }
    forall commits | History(disk, head, commits, role, sha, decode) ensures result == Some(commits) {
      ChainIsHistory(disk, head, commits, role, sha, decode);
      WalkIsChain(disk, head.commit, |commits|, commits, role, sha, decode);
    }
  }

  lemma {:induction false} WalkLength(disk: Disk, link: Link, n: int, role: string, sha: Hash, decode: Decoder)
    ensures Walk(disk, link, n, role, sha, decode).Some? ==> |Walk(disk, link, n, role, sha, decode).value| == n
    decreases n
  {
    if n > 0 {
      var commit := ReadCommit(disk, link, role, sha, decode);
      if commit.Some? { WalkLength(disk, commit.value.previous, n - 1, role, sha, decode); }
    }
  }

  /** A history stays one over every later sequence of journal calls that keeps its heads off the chain's files. */
  lemma HistorySurvives(j: Journal, calls: seq<Call>, n: nat, head: Head, commits: seq<Commit>, role: string,
                        sha: Hash, fails: Faults, decode: Decoder)
    requires Sound(j, sha) && Injective(sha) && n <= |calls|
    requires History(j.disk, head, commits, role, sha, decode) && StoredOff(head.commit, commits, Heads(calls))
    ensures History(After(j, calls, n, sha, fails).disk, head, commits, role, sha, decode)
  {
    ChainIsHistory(j.disk, head, commits, role, sha, decode);
    ChainSurvivesRun(j, calls, n, head.commit, commits, role, sha, fails, decode);
    ChainIsHistory(After(j, calls, n, sha, fails).disk, head, commits, role, sha, decode);
  }
}
