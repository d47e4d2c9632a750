/** Reading a commit chain back from a pinned head. */
module Chain {
  // The loop with its cycle check, what a chain is, and why later transactions cannot change
  // what a pinned head reads.

  import opened Common
  import opened Journal

  datatype Reference = Reference(path: Path, role: string, length: int, digest: Digest)

  /** A commit reference as a document holds it. */
  datatype Link = Nothing | To(reference: Reference) | Malformed

  /** The fields of a decoded commit; a sequence that is no integer is absent. */
  datatype Commit = Commit(sequence: Option<int>, previous: Link)

  datatype Head = Head(sequence: Option<int>, commit: Link)

  /** Parses a document and checks its canonical form, schema and binding. */
  type Decoder = Bytes -> Option<Commit>

  // ---- Reading one commit -----------------------------------------------------------------------

  function ReadImmutable(disk: Disk, reference: Reference, role: string, sha: Hash): (payload: Option<Bytes>)
    ensures payload.Some? ==> sha(payload.value) == reference.digest && |payload.value| == reference.length
  {
    var path := reference.path;
    if reference.length < 0 || !Named(path) || reference.role != role || CrossesSymlink(disk.nodes, path) then None
    else if path !in disk.nodes || !disk.nodes[path].File? then None
    else
      var payload := disk.nodes[path].bytes;
      if |payload| != reference.length || sha(payload) != reference.digest then None else Some(payload)
  }

  function ReadCommit(disk: Disk, link: Link, role: string, sha: Hash, decode: Decoder): Option<Commit> {
    if !link.To? then None
    else
      var payload := ReadImmutable(disk, link.reference, role, sha);
      if payload.None? then None else decode(payload.value)
  }

  // ---- What a chain is --------------------------------------------------------------------------

  /** The link that leads to the commit at index `k` of an oldest-first chain. */
  function LinkTo(commits: seq<Commit>, head: Link, k: nat): Link
    requires k < |commits|
  {
    if k == |commits| - 1 then head else commits[k + 1].previous
  }

  /** Oldest first, numbered from one, each linked from its successor, the first from nothing. */
  ghost predicate IsChain(disk: Disk, head: Link, commits: seq<Commit>, role: string, sha: Hash, decode: Decoder) {
    && (commits == [] ==> head.Nothing?)
    && (commits != [] ==> commits[0].previous.Nothing?)
    && (forall k :: 0 <= k < |commits| ==> Placed(disk, head, commits, k, role, sha, decode))
  }

  ghost predicate Placed(disk: Disk, head: Link, commits: seq<Commit>, k: nat, role: string, sha: Hash, decode: Decoder)
    requires k < |commits|
  {
    ReadCommit(disk, LinkTo(commits, head, k), role, sha, decode) == Some(commits[k]) && commits[k].sequence == Some(k + 1)
  }

  /** Walks back `n` commits without any cycle check. */
  function Walk(disk: Disk, link: Link, n: int, role: string, sha: Hash, decode: Decoder): Option<seq<Commit>>
    decreases n
  {
    if n <= 0 then if n == 0 && link.Nothing? then Some([]) else None
    else
      var commit := ReadCommit(disk, link, role, sha, decode);
      if commit.None? || commit.value.sequence != Some(n) then None
      else Appended(Walk(disk, commit.value.previous, n - 1, role, sha, decode), commit.value)
  }

  function Appended(commits: Option<seq<Commit>>, commit: Commit): Option<seq<Commit>> {
    if commits.None? then None else Some(commits.value + [commit])
  }

  function Joined(commits: Option<seq<Commit>>, rest: seq<Commit>): Option<seq<Commit>> {
    if commits.None? then None else Some(commits.value + rest)
  }

  // ---- The loop ---------------------------------------------------------------------------------

  function Digests(disk: Disk, sha: Hash): (digests: set<Digest>)
    ensures forall path :: path in disk.nodes && disk.nodes[path].File? ==> sha(disk.nodes[path].bytes) in digests
  {
    set path | path in disk.nodes && disk.nodes[path].File? :: sha(disk.nodes[path].bytes)
  }

  /** Every commit read so far is numbered above `n`, whichever reference names it. */
  ghost predicate Above(disk: Disk, seen: set<Digest>, n: int, role: string, sha: Hash, decode: Decoder) {
    forall link: Link :: link.To? && link.reference.digest in seen && ReadCommit(disk, link, role, sha, decode).Some? ==>
      NumberedAbove(ReadCommit(disk, link, role, sha, decode).value, n)
  }

  predicate NumberedAbove(commit: Commit, n: int) {
    commit.sequence.Some? && commit.sequence.value > n
  }

  /** Equal digests name equal commits. */
  lemma DigestNamesCommit(disk: Disk, a: Link, b: Link, role: string, sha: Hash, decode: Decoder)
    requires Injective(sha) && a.To? && b.To? && a.reference.digest == b.reference.digest
    requires ReadCommit(disk, a, role, sha, decode).Some? && ReadCommit(disk, b, role, sha, decode).Some?
    ensures ReadCommit(disk, a, role, sha, decode) == ReadCommit(disk, b, role, sha, decode)
  {
  }

  lemma SeenOne(disk: Disk, seen: set<Digest>, link: Link, n: int, role: string, sha: Hash, decode: Decoder)
    requires Injective(sha) && Above(disk, seen, n, role, sha, decode) && link.To?
    requires ReadCommit(disk, link, role, sha, decode).Some? && ReadCommit(disk, link, role, sha, decode).value.sequence == Some(n)
    ensures Above(disk, seen + {link.reference.digest}, n - 1, role, sha, decode)
  {
    forall other: Link | other.To? && other.reference.digest in seen + {link.reference.digest} && ReadCommit(disk, other, role, sha, decode).Some?
      ensures NumberedAbove(ReadCommit(disk, other, role, sha, decode).value, n - 1)
    {
      if other.reference.digest == link.reference.digest {
        DigestNamesCommit(disk, other, link, role, sha, decode);
      }
    }
  }

  /** A digest met before cannot be the next commit of any chain. */
  lemma SeenIsNoChain(disk: Disk, seen: set<Digest>, link: Link, n: int, role: string, sha: Hash, decode: Decoder)
    requires Above(disk, seen, n, role, sha, decode) && link.To? && link.reference.digest in seen
    ensures Walk(disk, link, n, role, sha, decode).None?
  {
  }

  lemma JoinAppended(commits: Option<seq<Commit>>, commit: Commit, rest: seq<Commit>)
    ensures Joined(Appended(commits, commit), rest) == Joined(commits, [commit] + rest)
  {
    if commits.Some? {
      assert commits.value + [commit] + rest == commits.value + ([commit] + rest);
    }
  }

  lemma NegativeIsNoChain(disk: Disk, link: Link, n: int, role: string, sha: Hash, decode: Decoder)
    requires n < 0 || (n == 0 && !link.Nothing?)
    ensures Walk(disk, link, n, role, sha, decode).None?
  {
  }

  function Reversed(commits: seq<Commit>): (reversed: seq<Commit>)
    ensures |reversed| == |commits|
  {
    seq(|commits|, k requires 0 <= k < |commits| => commits[|commits| - 1 - k])
  }

  lemma ReversedPush(commits: seq<Commit>, commit: Commit)
    ensures Reversed(commits + [commit]) == [commit] + Reversed(commits)
  {
  }

  lemma JoinNothing(commits: Option<seq<Commit>>)
    ensures Joined(commits, Reversed([])) == commits
  {
    if commits.Some? {
      assert commits.value + Reversed([]) == commits.value;
    }
  }

  /** Reads the chain newest first and turns it round; `None` stands for the integrity error. */
  method ReadChain(disk: Disk, head: Head, role: string, sha: Hash, decode: Decoder) returns (result: Option<seq<Commit>>)
    requires Injective(sha)
    ensures result == if head.sequence.None? then None else Walk(disk, head.commit, head.sequence.value, role, sha, decode)
  {
    if head.sequence.None? || head.sequence.value < 0 {
      return None;
    }
    var expected := head.sequence.value;
    var reference := head.commit;
    if reference.Nothing? {
      if expected != 0 { return None; }
      return Some([]);
    }
    var commits: seq<Commit> := [];
    var seen: set<Digest> := {};
    JoinNothing(Walk(disk, reference, expected, role, sha, decode));
    while !reference.Nothing?
      invariant Above(disk, seen, expected, role, sha, decode)
      invariant Walk(disk, head.commit, head.sequence.value, role, sha, decode)
             == Joined(Walk(disk, reference, expected, role, sha, decode), Reversed(commits))
      decreases Digests(disk, sha) - seen
    {
      if reference.Malformed? { return None; }
      var digest := reference.reference.digest;
      if digest in seen {
        SeenIsNoChain(disk, seen, reference, expected, role, sha, decode);
        return None;
      }
      var commit := ReadCommit(disk, reference, role, sha, decode);
      if commit.None? { return None; }
      if commit.value.sequence != Some(expected) { return None; }
      SeenOne(disk, seen, reference, expected, role, sha, decode);
      StepBack(disk, reference, expected, commit.value, commits, role, sha, decode);
      seen := seen + {digest};
      commits := commits + [commit.value];
      reference := commit.value.previous;
      expected := expected - 1;
    }
    if expected != 0 { return None; }
    assert [] + Reversed(commits) == Reversed(commits);
    return Some(Reversed(commits));
  }

  lemma StepBack(disk: Disk, link: Link, n: int, commit: Commit, commits: seq<Commit>, role: string, sha: Hash, decode: Decoder)
    requires ReadCommit(disk, link, role, sha, decode) == Some(commit) && commit.sequence == Some(n)
    ensures Joined(Walk(disk, link, n, role, sha, decode), Reversed(commits))
         == Joined(Walk(disk, commit.previous, n - 1, role, sha, decode), Reversed(commits + [commit]))
  {
    ReversedPush(commits, commit);
    if n > 0 {
      JoinAppended(Walk(disk, commit.previous, n - 1, role, sha, decode), commit, Reversed(commits));
    } else {
      NegativeIsNoChain(disk, commit.previous, n - 1, role, sha, decode);
    }
  }

  // ---- The walk returns the one chain there is ----------------------------------------------------

  lemma ChainExtends(disk: Disk, head: Link, commits: seq<Commit>, commit: Commit, role: string, sha: Hash, decode: Decoder)
    requires ReadCommit(disk, head, role, sha, decode) == Some(commit) && commit.sequence == Some(|commits| + 1)
    ensures IsChain(disk, commit.previous, commits, role, sha, decode) <==> IsChain(disk, head, commits + [commit], role, sha, decode)
  {
    var longer := commits + [commit];
    assert forall k :: 0 <= k < |commits| ==> LinkTo(longer, head, k) == LinkTo(commits, commit.previous, k);
    assert LinkTo(longer, head, |commits|) == head;
    if IsChain(disk, head, longer, role, sha, decode) {
      forall k | 0 <= k < |commits|
        ensures Placed(disk, commit.previous, commits, k, role, sha, decode)
      {
        assert Placed(disk, head, longer, k, role, sha, decode);
      }
    } else if IsChain(disk, commit.previous, commits, role, sha, decode) {
      forall k | 0 <= k < |longer|
        ensures Placed(disk, head, longer, k, role, sha, decode)
      {
        assert k < |commits| ==> Placed(disk, commit.previous, commits, k, role, sha, decode);
      }
    }
  }

  /** The walk finds a chain exactly when there is one of that length, and then that one. */
  lemma {:induction false} WalkIsChain(disk: Disk, head: Link, n: nat, commits: seq<Commit>, role: string, sha: Hash, decode: Decoder)
    requires |commits| == n
    ensures Walk(disk, head, n, role, sha, decode) == Some(commits) <==> IsChain(disk, head, commits, role, sha, decode)
    decreases n
  {
    if n > 0 {
      var last := commits[n - 1];
      assert commits[..n - 1] + [last] == commits;
      var found := ReadCommit(disk, head, role, sha, decode);
      assert IsChain(disk, head, commits, role, sha, decode) ==> Placed(disk, head, commits, n - 1, role, sha, decode);
      if found == Some(last) && last.sequence == Some(n) {
        WalkIsChain(disk, last.previous, n - 1, commits[..n - 1], role, sha, decode);
        ChainExtends(disk, head, commits[..n - 1], last, role, sha, decode);
      }
    }
  }

  /** A pinned head reads at most one chain. */
  lemma ChainUnique(disk: Disk, head: Link, a: seq<Commit>, b: seq<Commit>, role: string, sha: Hash, decode: Decoder)
    requires IsChain(disk, head, a, role, sha, decode) && IsChain(disk, head, b, role, sha, decode)
    ensures a == b
  {
    if a != [] { assert Placed(disk, head, a, |a| - 1, role, sha, decode); }
    if b != [] { assert Placed(disk, head, b, |b| - 1, role, sha, decode); }
    if a != [] {
      WalkIsChain(disk, head, |a|, a, role, sha, decode);
      WalkIsChain(disk, head, |b|, b, role, sha, decode);
    }
  }

  // ---- Later transactions ---------------------------------------------------------------------

  lemma ReadStays(a: Disk, b: Disk, link: Link, heads: set<Path>, role: string, sha: Hash, decode: Decoder)
    requires Tree(a) && Later(a, b, heads) && link.To? && link.reference.path !in heads
    requires ReadCommit(a, link, role, sha, decode).Some?
    ensures ReadCommit(b, link, role, sha, decode) == ReadCommit(a, link, role, sha, decode)
  {
    var path := link.reference.path;
    forall i | 0 <= i <= |path|
      ensures !SymlinkAt(b.nodes, path[..i])
    {
      if i < |path| {
        AncestorsAreDirectories(a, path, i);
      } else {
        assert path[..i] == path;
      }
    }
  }

  /** No commit of the chain is stored under a head's path. */
  predicate StoredOff(head: Link, commits: seq<Commit>, heads: set<Path>) {
    forall k :: 0 <= k < |commits| ==> var link := LinkTo(commits, head, k); link.To? ==> link.reference.path !in heads
  }

  /** What a pinned head reads stays the same over every later sequence of journal calls,
      failures included, that keeps its heads off the chain's artifacts. */
  lemma ChainSurvivesRun(j: Journal, calls: seq<Call>, n: nat, head: Link, commits: seq<Commit>, role: string,
                         sha: Hash, fails: Faults, decode: Decoder)
    requires Sound(j, sha) && Injective(sha) && n <= |calls|
    requires IsChain(j.disk, head, commits, role, sha, decode) && StoredOff(head, commits, Heads(calls))
    ensures IsChain(After(j, calls, n, sha, fails).disk, head, commits, role, sha, decode)
    ensures Walk(After(j, calls, n, sha, fails).disk, head, |commits|, role, sha, decode) == Some(commits)
  {
    RunKeeps(j, calls, 0, n, sha, fails);
    var end := After(j, calls, n, sha, fails).disk;
    ChainStays(j.disk, end, head, commits, Heads(calls), role, sha, decode);
    WalkIsChain(end, head, |commits|, commits, role, sha, decode);
  }

  lemma ChainStays(a: Disk, b: Disk, head: Link, commits: seq<Commit>, heads: set<Path>, role: string, sha: Hash, decode: Decoder)
    requires Tree(a) && Later(a, b, heads) && IsChain(a, head, commits, role, sha, decode) && StoredOff(head, commits, heads)
    ensures IsChain(b, head, commits, role, sha, decode)
  {
    forall k | 0 <= k < |commits|
      ensures Placed(b, head, commits, k, role, sha, decode)
    {
      assert Placed(a, head, commits, k, role, sha, decode);
      ReadStays(a, b, LinkTo(commits, head, k), heads, role, sha, decode);
    }
  }
}
