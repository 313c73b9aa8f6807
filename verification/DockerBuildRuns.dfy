/** Run histories of the CI pipeline on one checkout: which image builds are skipped, and what the
    marker of the last local image build stands for.

    Git is a set of immutable commits with trees; a working tree with the paths the index tracks; and
    a HEAD. Between any two steps of a run everything but the marker may change. Files git ignores
    are in no tree here, and a listing names paths as they are (no quoting). */
module DockerBuildRuns {
  import opened Text
  import opened DockerBuildDecision
  import opened Wrappers

  type Tree = map<string, string>

  /** A commit: its files, and the commits it descends from, itself included. */
  datatype Commit = Commit(tree: Tree, history: set<string>)

  datatype Repository = Repository(commits: map<string, Commit>, head: Option<string>, work: Tree, tracked: set<string>)

  /** The part of a tree the images are built from. */
  function RelevantTree(t: Tree): (r: Tree)
  {
    map p | p in t && IsDockerRelevant(p) :: t[p]
  }

  // ----- what git answers -----------------------------------------------------------------------

  predicate Differs(a: Tree, b: Tree, p: string)
  {
    (p in a) != (p in b) || (p in a && p in b && a[p] != b[p])
  }

  /** A rename git detected between two trees: a deleted path paired with an added one. */
  datatype Move = Move(source: string, target: string)

  predicate AreMoves(a: Tree, b: Tree, moves: set<Move>)
  {
    forall m :: m in moves ==> m.source in a && m.source !in b && m.target in b && m.target !in a
  }

  /** `git diff --name-only`: every path that differs, except that of a rename only the target is listed. */
  ghost predicate IsListing(a: Tree, b: Tree, moves: set<Move>, files: seq<string>)
  {
    forall p :: p in files <==> Differs(a, b, p) && forall m :: m in moves ==> m.source != p
  }

  /** The working tree as `git diff HEAD` sees it: tracked paths only. */
  function TrackedWork(repo: Repository): (t: Tree)
  {
    map p | p in repo.work && p in repo.tracked :: repo.work[p]
  }

  predicate HeadIsKnown(repo: Repository)
  {
    && repo.head.Some? && repo.head.value in repo.commits
    && forall c :: c in repo.commits[repo.head.value].history ==> c in repo.commits
  }

  function HeadTree(repo: Repository): (t: Tree)
    requires HeadIsKnown(repo)
  {
    repo.commits[repo.head.value].tree
  }

  /** The renames of one decision: those in `git diff HEAD` and those in `git diff <marker> HEAD`. */
  datatype Renames = Renames(uncommitted: set<Move>, committed: set<Move>)

  /** Each git query either fails or tells the truth about `repo`. */
  ghost predicate Truthful(exec: Exec, repo: Repository, renames: Renames)
  {
    && (exec(DiffHead).Output? ==>
          && HeadIsKnown(repo) && AreMoves(HeadTree(repo), TrackedWork(repo), renames.uncommitted)
          && IsListing(HeadTree(repo), TrackedWork(repo), renames.uncommitted, exec(DiffHead).lines))
    && (exec(Untracked).Output? ==>
          forall p :: p in exec(Untracked).lines <==> p in repo.work && p !in repo.tracked)
    && (forall sha :: exec(IsAncestor(sha)).Output? ==>
          HeadIsKnown(repo) && sha in repo.commits[repo.head.value].history)
    && (forall sha :: exec(DiffFrom(sha)).Output? ==>
          && HeadIsKnown(repo) && sha in repo.commits
          && AreMoves(repo.commits[sha].tree, HeadTree(repo), renames.committed)
          && IsListing(repo.commits[sha].tree, HeadTree(repo), renames.committed, exec(DiffFrom(sha)).lines))
  }

  /** No detected rename takes a file out of the image paths. */
  predicate StaysRelevant(moves: set<Move>)
  {
    forall m :: m in moves && IsDockerRelevant(m.source) ==> IsDockerRelevant(m.target)
  }

  // ----- one decision ---------------------------------------------------------------------------

  lemma SameRelevantTree(a: Tree, b: Tree)
    ensures RelevantTree(a) == RelevantTree(b) <==> forall p :: IsDockerRelevant(p) ==> !Differs(a, b, p)
  {
    if RelevantTree(a) == RelevantTree(b) {
      forall p | IsDockerRelevant(p) ensures !Differs(a, b, p) {
        assert p in RelevantTree(a) <==> p in a;
        assert p in RelevantTree(b) <==> p in b;
      }
    }
    if forall p :: IsDockerRelevant(p) ==> !Differs(a, b, p) {
      assert RelevantTree(a).Keys == RelevantTree(b).Keys;
    }
  }

  /** A listing without image paths hides exactly the image paths renamed to somewhere else. */
  lemma QuietListing(a: Tree, b: Tree, moves: set<Move>, files: seq<string>)
    requires AreMoves(a, b, moves) && IsListing(a, b, moves, files) && !AnyRelevant(files)
    ensures forall p :: IsDockerRelevant(p) && Differs(a, b, p) ==> p in a && p !in b
    ensures (forall p :: IsDockerRelevant(p) ==> !Differs(a, b, p)) <==> StaysRelevant(moves)
  {
    hide IsDockerRelevant;
    RelevantIn(files);
    forall m | m in moves ensures m.target in files && !IsDockerRelevant(m.target) {
      assert Differs(a, b, m.target);
    }
    forall m | m in moves ensures Differs(a, b, m.source) {}
  }

  /** A start that counts as clean has HEAD's own image tree, exactly when no rename left the image paths. */
  lemma CleanStartIsHead(repo: Repository, exec: Exec, renames: Renames)
    requires Truthful(exec, repo, renames) && exec(DiffHead).Output? && exec(Untracked).Output?
    requires !AnyRelevant(exec(DiffHead).lines) && !AnyRelevant(exec(Untracked).lines)
    ensures RelevantTree(repo.work) == RelevantTree(HeadTree(repo)) <==> StaysRelevant(renames.uncommitted)
    ensures RelevantTree(repo.work) == RelevantTree(TrackedWork(repo))
  {
    hide IsDockerRelevant;
    var head, seen := HeadTree(repo), TrackedWork(repo);
    RelevantIn(exec(Untracked).lines);
    QuietListing(head, seen, renames.uncommitted, exec(DiffHead).lines);
    SameRelevantTree(head, seen);
    SameRelevantTree(repo.work, seen);
    forall p | IsDockerRelevant(p) ensures !Differs(repo.work, seen, p) {
      assert p in repo.work ==> p in exec(Untracked).lines || p in repo.tracked;
    }
  }

  /** A local run that skips without SKIP_DOCKER_BUILD has the marker commit's image tree in its working
      tree, exactly when no detected rename took a file out of the image paths. */
  lemma SkipIsMarkerTree(repo: Repository, exec: Exec, renames: Renames, env: Env, marker: MarkerFile)
    requires Truthful(exec, repo, renames) && IsLocalRun(env) && !IsForced(env) && !IsSkipped(env)
    requires !DecideDockerBuild(exec, env, marker).required
    ensures marker.Holds? && Trim(marker.text) in repo.commits
    ensures RelevantTree(repo.work) == RelevantTree(repo.commits[Trim(marker.text)].tree)
            <==> StaysRelevant(renames.uncommitted) && StaysRelevant(renames.committed)
  {
    SkipsExactlyWhen(exec, env, marker);
    hide IsDockerRelevant, DecideDockerBuild;
    var sha := Trim(marker.text);
    var built, head, seen := repo.commits[sha].tree, HeadTree(repo), TrackedWork(repo);
    CleanStartIsHead(repo, exec, renames);
    QuietListing(head, seen, renames.uncommitted, exec(DiffHead).lines);
    QuietListing(built, head, renames.committed, exec(DiffFrom(sha)).lines);
    SameRelevantTree(built, head);
    SameRelevantTree(head, seen);
    SameRelevantTree(seen, built);
    if RelevantTree(seen) == RelevantTree(built) {
      forall p | IsDockerRelevant(p) ensures !Differs(built, head, p) && !Differs(head, seen, p) {
        assert !Differs(seen, built, p);
      }
    }
  }

  /** With every query answered, a local run skips exactly when the marker's image tree is HEAD's, HEAD's is
      the tracked working tree's, and no untracked file is an image path (renames staying inside). */
  lemma SkipsExactlyWhenUnchanged(repo: Repository, exec: Exec, renames: Renames, env: Env, marker: MarkerFile)
    requires Truthful(exec, repo, renames) && IsLocalRun(env) && !IsForced(env) && !IsSkipped(env)
    requires StaysRelevant(renames.uncommitted) && StaysRelevant(renames.committed)
    requires marker.Holds? && IsSha(Trim(marker.text)) && exec(IsInsideWorkTree).Output?
    requires exec(DiffHead).Output? && exec(Untracked).Output?
    requires exec(IsAncestor(Trim(marker.text))).Output? && exec(DiffFrom(Trim(marker.text))).Output?
    ensures !DecideDockerBuild(exec, env, marker).required <==>
            && RelevantTree(repo.commits[Trim(marker.text)].tree) == RelevantTree(HeadTree(repo))
            && RelevantTree(HeadTree(repo)) == RelevantTree(TrackedWork(repo))
            && forall p :: p in repo.work && p !in repo.tracked ==> !IsDockerRelevant(p)
  {
    SkipsExactlyWhen(exec, env, marker);
    hide IsDockerRelevant, DecideDockerBuild;
    var sha := Trim(marker.text);
    SameRelevantTree(repo.commits[sha].tree, HeadTree(repo));
    SameRelevantTree(HeadTree(repo), TrackedWork(repo));
    RelevantListing(repo.commits[sha].tree, HeadTree(repo), renames.committed, exec(DiffFrom(sha)).lines);
    RelevantListing(HeadTree(repo), TrackedWork(repo), renames.uncommitted, exec(DiffHead).lines);
    RelevantIn(exec(Untracked).lines);
  }

  /** With renames staying inside, a listing holds an image path exactly when one differs. */
  lemma RelevantListing(a: Tree, b: Tree, moves: set<Move>, files: seq<string>)
    requires AreMoves(a, b, moves) && IsListing(a, b, moves, files) && StaysRelevant(moves)
    ensures AnyRelevant(files) <==> exists p :: IsDockerRelevant(p) && Differs(a, b, p)
  {
    hide IsDockerRelevant;
    RelevantIn(files);
    if p :| IsDockerRelevant(p) && Differs(a, b, p) {
      if m :| m in moves && m.source == p {
        assert Differs(a, b, m.target) && m.target in files;
      }
    }
  }
}
