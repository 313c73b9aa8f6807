/** Whether a CI run builds the Docker images, from what git and the marker file answer. */
module DockerBuildDecision {
  import opened Text
  import opened Wrappers

  /** The image paths: folders end in a slash, files do not. */
  function DockerRelevantPaths(): (paths: seq<string>)
  {
    ["docker/", "services/", "libs/", "ci/", ".github/",
     "package.json", "pnpm-workspace.yaml", "pnpm-lock.yaml", ".dockerignore"]
  }

  /** A path below one of the folders, or one of the files. */
  predicate IsDockerRelevant(file: string)
  {
    exists p :: p in DockerRelevantPaths() && if EndsWith(p, "/") then StartsWith(file, p) else file == p
  }

  predicate AnyRelevant(files: seq<string>)
  {
    exists i :: 0 <= i < |files| && IsDockerRelevant(files[i])
  }

  /** `/^[0-9a-f]{40}$/`. */
  predicate IsSha(s: string)
  {
    |s| == 40 && forall i :: 0 <= i < |s| ==> ('0' <= s[i] <= '9' || 'a' <= s[i] <= 'f')
  }

  /** The environment variables the decision reads; an unset one is empty. */
  datatype Env = Env(
    forceDockerBuild: string, skipDockerBuild: string, githubActions: string, ci: string,
    githubBaseRef: string, githubEventBefore: string)

  predicate IsForced(env: Env) { env.forceDockerBuild == "true" || env.forceDockerBuild == "1" }
  predicate IsSkipped(env: Env) { env.skipDockerBuild == "true" || env.skipDockerBuild == "1" }
  predicate IsLocalRun(env: Env) { env.githubActions != "true" && env.ci != "true" }

  const ZERO_COMMIT := "0000000000000000000000000000000000000000"

  /** The git commands the decision runs. */
  datatype Command =
    | IsInsideWorkTree
    | DiffHead
    | Untracked
    | IsAncestor(sha: string)
    | DiffFrom(sha: string)
    | DiffBase(base: string)
    | DiffParent

  /** A command's output lines, or a non-zero exit. */
  datatype Answer = Output(lines: seq<string>) | Failed

  type Exec = Command -> Answer

  /** Reading the marker file. */
  datatype MarkerFile = Missing | Unreadable | Holds(text: string)

  datatype Reason =
    | Forced | Skipped | NotARepository | GitDiffFailed | NoMarker | BadMarker | NotAnAncestor
    | SameAsMarker | NoChangedFiles | RelevantFilesChanged(since: string) | NoRelevantFilesChanged(since: string)

  datatype Clean = Unknown | Known(clean: bool)

  datatype Decision = Decision(required: bool, reason: Reason, files: seq<string>, cleanTree: Clean)

  function FailSafe(reason: Reason): (d: Decision) { Decision(true, reason, [], Unknown) }

  /** `[...new Set(files)]`: each file once, in first-seen order. */
  function Distinct(files: seq<string>): (r: seq<string>)
    ensures forall f :: f in r <==> f in files
    ensures forall i, j :: 0 <= i < j < |r| ==> r[i] != r[j]
  {
    if files == [] then []
    else
      var before := Distinct(files[..|files| - 1]);
      var last := files[|files| - 1];
      assert files == files[..|files| - 1] + [last];
      if last in before then before else before + [last]
  }

  function UncommittedFiles(exec: Exec): (r: Option<seq<string>>)
  {
    if exec(DiffHead).Failed? then None
    else if exec(Untracked).Failed? then None
    else Some(Distinct(exec(DiffHead).lines + exec(Untracked).lines))
  }

  predicate IsCleanStart(uncommitted: seq<string>) { !AnyRelevant(uncommitted) }

  /** A finished decision, or the files to judge and what they were compared against. */
  datatype Changes = Finished(decision: Decision) | Files(files: seq<string>, base: string)

  function ChangesSinceMarker(exec: Exec, marker: MarkerFile, uncommitted: seq<string>): (r: Changes)
  {
    if !marker.Holds? then Finished(FailSafe(NoMarker))
    else
      var sha := Trim(marker.text);
      if !IsSha(sha) then Finished(FailSafe(BadMarker))
      else if exec(IsAncestor(sha)).Failed? then Finished(FailSafe(NotAnAncestor))
      else if exec(DiffFrom(sha)).Failed? then Finished(FailSafe(GitDiffFailed))
      else
        var files := Distinct(exec(DiffFrom(sha)).lines + uncommitted);
        if files == [] then Finished(Decision(false, SameAsMarker, [], Unknown)) else Files(files, sha)
  }

  function Relevant(files: seq<string>): (r: seq<string>)
    ensures r == [] <==> !AnyRelevant(files)
    ensures forall f :: f in r <==> f in files && IsDockerRelevant(f)
  {
    if files == [] then []
    else
      var rest := Relevant(files[1..]);
      assert forall f :: f in files <==> f == files[0] || f in files[1..];
      if IsDockerRelevant(files[0]) then [files[0]] + rest
      else
        assert AnyRelevant(files) ==> AnyRelevant(files[1..]) by {
          if AnyRelevant(files) {
            var i :| 0 <= i < |files| && IsDockerRelevant(files[i]);
            assert IsDockerRelevant(files[1..][i - 1]);
          }
        }
        rest
  }

  /** The last part: judge a list of changed files. */
  function Judge(files: seq<string>, base: string, clean: Clean): (d: Decision)
  {
    if files == [] then FailSafe(NoChangedFiles).(cleanTree := clean)
    else if Relevant(files) != [] then Decision(true, RelevantFilesChanged(base), Relevant(files), clean)
    else Decision(false, NoRelevantFilesChanged(base), files, clean)
  }

  function BaseBranch(env: Env): (base: string)
  {
    if env.githubBaseRef != "" then "origin/" + env.githubBaseRef
    else if env.githubEventBefore != "" && env.githubEventBefore != ZERO_COMMIT then env.githubEventBefore
    else "HEAD~1"
  }

  function JudgeDiff(answer: Answer): (d: Decision)
  {
    if answer.Failed? then FailSafe(GitDiffFailed) else Judge(answer.lines, "", Unknown)
  }

  function DecideLocally(exec: Exec, marker: MarkerFile): (d: Decision)
  {
    match UncommittedFiles(exec)
    case None => FailSafe(GitDiffFailed).(cleanTree := Known(false))
    case Some(uncommitted) =>
      var clean := Known(IsCleanStart(uncommitted));
      match ChangesSinceMarker(exec, marker, uncommitted)
      case Finished(decision) => decision.(cleanTree := clean)
      case Files(files, base) => Judge(files, base, clean)
  }

  function DecideDockerBuild(exec: Exec, env: Env, marker: MarkerFile): (d: Decision)
  {
    if IsForced(env) then
      var clean :=
        if !IsLocalRun(env) then Unknown
        else match UncommittedFiles(exec)
             case None => Known(false)
             case Some(uncommitted) => Known(IsCleanStart(uncommitted));
      Decision(true, Forced, [], clean)
    else if IsSkipped(env) then Decision(false, Skipped, [], Unknown)
    else if exec(IsInsideWorkTree).Failed? then Decision(true, NotARepository, [], Unknown)
    else if env.githubActions == "true" then JudgeDiff(exec(DiffBase(BaseBranch(env))))
    else if env.ci == "true" then JudgeDiff(exec(DiffParent))
    else DecideLocally(exec, marker)
  }

  // ----- what the decision promises -------------------------------------------------------------

  /** A path the images are built from. */
  predicate IsImagePath(file: string)
  {
    || StartsWith(file, "docker/") || StartsWith(file, "services/") || StartsWith(file, "libs/") || StartsWith(file, "ci/")
    || StartsWith(file, ".github/") || file == "package.json" || file == "pnpm-workspace.yaml" || file == "pnpm-lock.yaml"
    || file == ".dockerignore"
  }

  lemma FoldersEndInSlash()
    ensures EndsWith("docker/", "/") && EndsWith("services/", "/") && EndsWith("libs/", "/") && EndsWith("ci/", "/")
    ensures EndsWith(".github/", "/") && !EndsWith("package.json", "/") && !EndsWith("pnpm-workspace.yaml", "/")
    ensures !EndsWith("pnpm-lock.yaml", "/") && !EndsWith(".dockerignore", "/")
  {
  }

  lemma RelevantIsImagePath(file: string)
    ensures IsDockerRelevant(file) <==> IsImagePath(file)
  {
    hide EndsWith, StartsWith;
    FoldersEndInSlash();
    var paths := DockerRelevantPaths();
    assert paths[0] == "docker/" && paths[1] == "services/" && paths[2] == "libs/" && paths[3] == "ci/" && paths[4] == ".github/";
    assert paths[5] == "package.json" && paths[6] == "pnpm-workspace.yaml" && paths[7] == "pnpm-lock.yaml";
    assert paths[8] == ".dockerignore";
  }

  /** The git commands a run of this kind depends on. */
  predicate Needs(env: Env, marker: MarkerFile, c: Command)
  {
    match c
    case IsInsideWorkTree => true
    case DiffBase(base) => env.githubActions == "true" && base == BaseBranch(env)
    case DiffParent => env.githubActions != "true" && env.ci == "true"
    case DiffHead => IsLocalRun(env)
    case Untracked => IsLocalRun(env)
    case IsAncestor(sha) => IsLocalRun(env) && marker.Holds? && sha == Trim(marker.text)
    case DiffFrom(sha) => IsLocalRun(env) && marker.Holds? && sha == Trim(marker.text)
  }

  /** Without SKIP_DOCKER_BUILD, a failing git query builds, whichever query it is. */
  lemma FailingQueryBuilds(exec: Exec, env: Env, marker: MarkerFile, c: Command)
    requires !IsSkipped(env) && Needs(env, marker, c) && exec(c).Failed?
    ensures DecideDockerBuild(exec, env, marker).required
  {
  }

  /** Without SKIP_DOCKER_BUILD, a local run without a usable marker builds. */
  lemma UnusableMarkerBuilds(exec: Exec, env: Env, marker: MarkerFile)
    requires !IsSkipped(env) && IsLocalRun(env) && (!marker.Holds? || !IsSha(Trim(marker.text)))
    ensures DecideDockerBuild(exec, env, marker).required
  {
  }

  /** All three listings behind a local decision hold no image path. */
  predicate NothingRelevantListed(exec: Exec, sha: string)
  {
    && exec(DiffHead).Output? && exec(Untracked).Output? && exec(DiffFrom(sha)).Output?
    && !AnyRelevant(exec(DiffHead).lines) && !AnyRelevant(exec(Untracked).lines) && !AnyRelevant(exec(DiffFrom(sha)).lines)
  }

  lemma RelevantIn(files: seq<string>)
    ensures AnyRelevant(files) <==> exists f :: f in files && IsDockerRelevant(f)
  {
    if f :| f in files && IsDockerRelevant(f) {
      var i :| 0 <= i < |files| && files[i] == f;
    }
  }

  /** Exactly when a local run without overrides skips the build. */
  lemma SkipsExactlyWhen(exec: Exec, env: Env, marker: MarkerFile)
    requires IsLocalRun(env) && !IsForced(env) && !IsSkipped(env)
    ensures !DecideDockerBuild(exec, env, marker).required <==>
            && exec(IsInsideWorkTree).Output? && marker.Holds? && IsSha(Trim(marker.text))
            && exec(IsAncestor(Trim(marker.text))).Output?
            && NothingRelevantListed(exec, Trim(marker.text))
  {
    if exec(DiffHead).Output? && exec(Untracked).Output? && marker.Holds? {
      var sha := Trim(marker.text);
      var uncommitted := Distinct(exec(DiffHead).lines + exec(Untracked).lines);
      RelevantIn(exec(DiffHead).lines);
      RelevantIn(exec(Untracked).lines);
      if exec(DiffFrom(sha)).Output? {
        RelevantIn(exec(DiffFrom(sha)).lines);
        RelevantIn(Distinct(exec(DiffFrom(sha)).lines + uncommitted));
      }
    }
  }

  /** Exactly when a local run may record the marker: neither listing of the start holds an image path. */
  lemma CleanExactlyWhen(exec: Exec, env: Env, marker: MarkerFile)
    ensures DecideDockerBuild(exec, env, marker).cleanTree == Known(true) <==>
            && IsLocalRun(env) && (IsForced(env) || (!IsSkipped(env) && exec(IsInsideWorkTree).Output?))
            && exec(DiffHead).Output? && exec(Untracked).Output?
            && !AnyRelevant(exec(DiffHead).lines) && !AnyRelevant(exec(Untracked).lines)
  {
    if exec(DiffHead).Output? && exec(Untracked).Output? {
      RelevantIn(exec(DiffHead).lines);
      RelevantIn(exec(Untracked).lines);
      RelevantIn(Distinct(exec(DiffHead).lines + exec(Untracked).lines));
    }
  }

  /** A full commit id, in small letters. */
  predicate IsCommitId(s: string) { |s| == 40 && forall c :: c in s ==> c in "0123456789abcdef" }

  /** A local listing answers and holds no image path. */
  predicate ListsNoImagePath(answer: Answer) { answer.Output? && forall f :: f in answer.lines ==> !IsImagePath(f) }

  /** What a run on a CI server compares HEAD with: on GitHub the base of a pull request, else the commit before a push if
      there was one, else the parent commit; elsewhere the parent commit. */
  predicate Compares(env: Env, c: Command)
  {
    && (env.githubActions == "true" && env.githubBaseRef != "" ==> c == DiffBase("origin/" + env.githubBaseRef))
    && (env.githubActions == "true" && env.githubBaseRef == "" && env.githubEventBefore !in ["", ZERO_COMMIT] ==>
          c == DiffBase(env.githubEventBefore))
    && (env.githubActions == "true" && env.githubBaseRef == "" && env.githubEventBefore in ["", ZERO_COMMIT] ==>
          c == DiffBase("HEAD~1"))
    && (env.githubActions != "true" ==> c == DiffParent)
  }

  /** Exactly when a run on a CI server without overrides skips the build: its listing answers, is not empty and holds no
      image path. A build is for exactly the image paths listed. */
  lemma CiSkipsExactlyWhen(exec: Exec, env: Env, marker: MarkerFile, c: Command)
    requires !IsLocalRun(env) && !IsForced(env) && !IsSkipped(env) && Compares(env, c)
    ensures var d := DecideDockerBuild(exec, env, marker);
      && (!d.required <==>
            exec(IsInsideWorkTree).Output? && ListsNoImagePath(exec(c)) && exec(c).lines != [])
      && (exec(IsInsideWorkTree).Output? && exec(c).Output? && d.required ==>
            forall f :: f in d.files <==> f in exec(c).lines && IsImagePath(f))
  {
    hide IsDockerRelevant, IsImagePath, ZERO_COMMIT;
    forall f: string ensures IsDockerRelevant(f) <==> IsImagePath(f) { RelevantIsImagePath(f); }
    if exec(c).Output? { RelevantIn(exec(c).lines); }
  }

  /** There is one thing to compare with. */
  lemma ComparesOne(env: Env) returns (c: Command)
    ensures forall d :: Compares(env, d) <==> d == c
  {
    c := if env.githubActions != "true" then DiffParent
         else if env.githubBaseRef != "" then DiffBase("origin/" + env.githubBaseRef)
         else if env.githubEventBefore in ["", ZERO_COMMIT] then DiffBase("HEAD~1")
         else DiffBase(env.githubEventBefore);
  }

  /** The overrides, the force first. */
  lemma OverridesDecide(exec: Exec, env: Env, marker: MarkerFile)
    ensures env.forceDockerBuild in ["true", "1"] ==>
              DecideDockerBuild(exec, env, marker).required && DecideDockerBuild(exec, env, marker).reason == Forced
    ensures env.forceDockerBuild !in ["true", "1"] && env.skipDockerBuild in ["true", "1"] ==>
              !DecideDockerBuild(exec, env, marker).required
    ensures IsForced(env) <==> env.forceDockerBuild in ["true", "1"]
    ensures IsSkipped(env) <==> env.skipDockerBuild in ["true", "1"]
    ensures IsLocalRun(env) <==> !(env.githubActions == "true" || env.ci == "true")
  {
  }

  lemma NothingListed(exec: Exec, sha: string)
    ensures NothingRelevantListed(exec, sha) <==>
      ListsNoImagePath(exec(DiffHead)) && ListsNoImagePath(exec(Untracked)) && ListsNoImagePath(exec(DiffFrom(sha)))
    ensures IsSha(sha) <==> IsCommitId(sha)
  {
    hide IsDockerRelevant, IsImagePath;
    forall f: string ensures IsDockerRelevant(f) <==> IsImagePath(f) { RelevantIsImagePath(f); }
    forall c | c in [DiffHead, Untracked, DiffFrom(sha)] && exec(c).Output? ensures AnyRelevant(exec(c).lines) <==> !ListsNoImagePath(exec(c)) {
      RelevantIn(exec(c).lines);
    }
    CommitIds(sha);
  }

  lemma CommitIds(s: string)
    ensures IsSha(s) <==> IsCommitId(s)
  {
    forall c: char ensures c in "0123456789abcdef" <==> '0' <= c <= '9' || 'a' <= c <= 'f' {
      HexDigit(c);
    }
    if IsCommitId(s) {
      forall i | 0 <= i < |s| ensures '0' <= s[i] <= '9' || 'a' <= s[i] <= 'f' { assert s[i] in s; }
    }
  }

  lemma HexDigit(c: char)
    ensures c in "0123456789abcdef" <==> '0' <= c <= '9' || 'a' <= c <= 'f'
  {
    var digits := "0123456789abcdef";
    assert digits[0] == '0' && digits[1] == '1' && digits[2] == '2' && digits[3] == '3' && digits[4] == '4';
    assert digits[5] == '5' && digits[6] == '6' && digits[7] == '7' && digits[8] == '8' && digits[9] == '9';
    assert digits[10] == 'a' && digits[11] == 'b' && digits[12] == 'c' && digits[13] == 'd' && digits[14] == 'e' && digits[15] == 'f';
  }

  /** Any run at all: when it skips the build. */
  lemma AnyRunSkipsExactlyWhen(exec: Exec, env: Env, marker: MarkerFile) returns (c: Command)
    ensures forall d :: Compares(env, d) <==> d == c
    ensures !DecideDockerBuild(exec, env, marker).required <==>
      && env.forceDockerBuild !in ["true", "1"]
      && (|| env.skipDockerBuild in ["true", "1"]
          || (&& exec(IsInsideWorkTree).Output?
              && if env.githubActions == "true" || env.ci == "true"
                 then ListsNoImagePath(exec(c)) && exec(c).lines != []
                 else && marker.Holds? && IsCommitId(Trim(marker.text)) && exec(IsAncestor(Trim(marker.text))).Output?
                      && ListsNoImagePath(exec(DiffHead)) && ListsNoImagePath(exec(Untracked))
                      && ListsNoImagePath(exec(DiffFrom(Trim(marker.text))))))
  {
    hide IsDockerRelevant, IsImagePath, ZERO_COMMIT, DecideDockerBuild, NothingRelevantListed, IsSha, Trim, Compares,
      ListsNoImagePath, IsCommitId;
    c := ComparesOne(env);
    OverridesDecide(exec, env, marker);
    if marker.Holds? { NothingListed(exec, Trim(marker.text)); }
    if env.forceDockerBuild !in ["true", "1"] && env.skipDockerBuild !in ["true", "1"] {
      if IsLocalRun(env) { SkipsExactlyWhen(exec, env, marker); } else { CiSkipsExactlyWhen(exec, env, marker, c); }
    }
  }
}
