/** The CI pipeline's part in the Docker build decision, and every history of runs on one checkout.

    `Pipeline` is the script's own state object; the histories interleave its steps with whatever
    happens to the checkout meanwhile. */
module CiPipeline {
  import opened Text
  import opened DockerBuildDecision
  import opened DockerBuildRuns
  import opened Wrappers

  /** The state of one run: what the start decided, and the image Phase 7 has built. */
  datatype Run = Run(
    env: Env, dockerBuildRequired: bool, startHead: Option<string>, startCleanTree: bool,
    startTree: Tree, image: Option<Tree>)

  /** The first line of the pipeline's main function: HEAD, the decision, and its `cleanTree`. */
  function Started(repo: Repository, exec: Exec, env: Env, marker: MarkerFile, head: Option<string>): (r: Run)
  {
    var d := DecideDockerBuild(exec, env, marker);
    Run(env, d.required, head, d.cleanTree == Known(true), RelevantTree(repo.work), None)
  }

  /** What `fs.writeFile` leaves behind: nothing written, or the first `n` characters of the text. */
  datatype Written = Untouched | FirstChars(n: nat)

  function MarkerLine(sha: string): (line: string) { sha + "\n" }

  function AfterWrite(marker: MarkerFile, line: string, w: Written): (m: MarkerFile)
  {
    if w.Untouched? then marker else Holds(line[..if w.n < |line| then w.n else |line|])
  }

  /** The marker after a validated image: only a clean local start with a known HEAD records. */
  function Recorded(run: Run, marker: MarkerFile, w: Written): (m: MarkerFile)
  {
    if IsLocalRun(run.env) && run.startCleanTree && run.startHead.Some?
    then AfterWrite(marker, MarkerLine(run.startHead.value), w)
    else marker
  }

  /** The script's `state` object and the marker file. */
  class Pipeline {
    var env: Env
    var dockerBuildRequired: bool
    var startHead: Option<string>
    var startCleanTree: bool
    var marker: MarkerFile

    constructor (env: Env, marker: MarkerFile)
      ensures this.env == env && this.marker == marker
      ensures dockerBuildRequired && startHead == None && !startCleanTree
    {
      this.env, this.marker := env, marker;
      dockerBuildRequired, startHead, startCleanTree := true, None, false;
    }

    /** This run's state, given the image tree it started from and the image it has built. */
    ghost function State(startTree: Tree, image: Option<Tree>): (r: Run)
      reads this
    {
      Run(env, dockerBuildRequired, startHead, startCleanTree, startTree, image)
    }

    method Start(ghost repo: Repository, exec: Exec, head: Option<string>)
      modifies this
      ensures State(RelevantTree(repo.work), None) == Started(repo, exec, old(env), old(marker), head)
      ensures marker == old(marker)
    {
      startHead := head;
      var decision := DecideDockerBuild(exec, env, marker);
      dockerBuildRequired := decision.required;
      startCleanTree := decision.cleanTree == Known(true);
    }

    method RecordLocalDockerBuild(w: Written)
      modifies this`marker
      ensures forall startTree, image :: marker == Recorded(State(startTree, image), old(marker), w)
    {
      if !IsLocalRun(env) { return; }
      if !startCleanTree { return; }
      if startHead.None? { return; }
      marker := AfterWrite(marker, MarkerLine(startHead.value), w);
    }
  }

  // ----- histories ------------------------------------------------------------------------------

  /** The checkout, the marker, the run in progress, and the image trees ever built and validated. */
  datatype World = World(repo: Repository, marker: MarkerFile, run: Option<Run>, validated: set<Tree>)

  datatype Step =
    | Change(repo: Repository)
    | ForgetMarker
    | Start(env: Env, exec: Exec, head: Option<string>, renames: Renames)
    | Build
    | Validate(written: Written)
    | Abort

  /** Commits are immutable and stay. */
  predicate Keeps(before: Repository, after: Repository)
  {
    forall c :: c in before.commits ==> c in after.commits && after.commits[c] == before.commits[c]
  }

  ghost predicate Enabled(w: World, s: Step)
  {
    match s
    case Change(repo) => Keeps(w.repo, repo)
    case ForgetMarker => true
    case Start(_, exec, head, renames) =>
      && w.run.None? && Truthful(exec, w.repo, renames)
      && (head.Some? ==> IsSha(head.value) && head == w.repo.head)
    case Build => w.run.Some? && w.run.value.dockerBuildRequired
    case Validate(_) => w.run.Some? && w.run.value.image.Some?
    case Abort => w.run.Some?
  }

  function Next(w: World, s: Step): (w': World)
    requires s.Build? ==> w.run.Some?
    requires s.Validate? ==> w.run.Some? && w.run.value.image.Some?
  {
    match s
    case Change(repo) => w.(repo := repo)
    case ForgetMarker => w.(marker := Missing)
    case Start(env, exec, head, _) => w.(run := Some(Started(w.repo, exec, env, w.marker, head)))
    case Build => w.(run := Some(w.run.value.(image := Some(RelevantTree(w.repo.work)))))
    case Validate(written) =>
      w.(validated := w.validated + {w.run.value.image.value},
         marker := Recorded(w.run.value, w.marker, written), run := None)
    case Abort => w.(run := None)
  }

  /** At the start of a run, no rename git detects takes a file out of the image paths. */
  predicate RenamesStay(s: Step)
  {
    s.Start? ==> StaysRelevant(s.renames.uncommitted) && StaysRelevant(s.renames.committed)
  }

  /** What the design relies on: between the start of a run and its image build no image path changes, and
      no rename git detects takes a file out of the image paths. */
  predicate Disciplined(w: World, s: Step)
  {
    match s
    case Start(_, _, _, _) => RenamesStay(s)
    case Build => w.run.Some? ==> RelevantTree(w.repo.work) == w.run.value.startTree
    case _ => true
  }

  /** A usable marker names a commit whose image tree was built and validated. */
  predicate MarkerIsSound(w: World)
  {
    w.marker.Holds? && IsSha(Trim(w.marker.text)) ==>
      var sha := Trim(w.marker.text);
      sha in w.repo.commits && RelevantTree(w.repo.commits[sha].tree) in w.validated
  }

  /** A run that may record started on a commit that is there. */
  predicate StartedOnKnown(w: World)
  {
    w.run.Some? ==>
      var run := w.run.value;
      && (run.startHead.Some? ==> IsSha(run.startHead.value))
      && (run.startHead.Some? && run.startCleanTree ==> run.startHead.value in w.repo.commits)
  }

  /** And on that commit's own image tree. */
  predicate StartedOnCommit(w: World)
  {
    && StartedOnKnown(w)
    && (w.run.Some? && w.run.value.startHead.Some? && w.run.value.startCleanTree ==>
          RelevantTree(w.repo.commits[w.run.value.startHead.value].tree) == w.run.value.startTree)
  }

  /** And it built that one. */
  predicate RunIsSound(w: World)
  {
    StartedOnCommit(w) && (w.run.Some? && w.run.value.image.Some? ==> w.run.value.image.value == w.run.value.startTree)
  }

  predicate Sound(w: World) { MarkerIsSound(w) && RunIsSound(w) }

  /** Whatever is renamed; and where no rename leaves the image paths, on the commit's own tree. */
  lemma StartsOnCommit(w: World, s: Step)
    requires s.Start? && Enabled(w, s)
    ensures StartedOnKnown(Next(w, s)) && (RenamesStay(s) ==> StartedOnCommit(Next(w, s)))
  {
    CleanExactlyWhen(s.exec, s.env, w.marker);
    hide DecideDockerBuild, IsDockerRelevant, RelevantTree, StaysRelevant;
    if DecideDockerBuild(s.exec, s.env, w.marker).cleanTree == Known(true) {
      CleanStartIsHead(w.repo, s.exec, s.renames);
    }
  }

  /** A step after which the marker reads as the run's commit: a validated image of a clean local run with a known HEAD,
      with all of the commit id written. */
  predicate Records(w: World, s: Step)
  {
    s.Validate? && w.run.Some? &&
    var run := w.run.value;
    IsLocalRun(run.env) && run.startCleanTree && run.startHead.Some? && s.written.FirstChars? && s.written.n >= 40
  }

  /** The image is the recorded commit's own, or that one was validated before. */
  predicate RecordsOwnTree(w: World, s: Step)
    requires StartedOnKnown(w)
  {
    Records(w, s) ==>
      var tree := RelevantTree(w.repo.commits[w.run.value.startHead.value].tree);
      tree in w.validated || w.run.value.image == Some(tree)
  }

  /** The image is the tree the run started on, or that tree was validated before. */
  predicate RecordsStartTree(w: World, s: Step)
  {
    Records(w, s) ==> w.run.value.startTree in w.validated || w.run.value.image == Some(w.run.value.startTree)
  }

  /** What the marker reads as once the commit id is written, or less of it. */
  lemma PartialMarker(sha: string, n: nat)
    requires IsSha(sha)
    ensures var text := MarkerLine(sha)[..if n < |MarkerLine(sha)| then n else |MarkerLine(sha)|];
      if n >= 40 then Trim(text) == sha else !IsSha(Trim(text))
  {
    hide Trim;
    var line := MarkerLine(sha);
    TrimAround("", sha, "\n");
    TrimAround("", sha, "");
    assert "" + sha + "\n" == line && "" + sha + "" == sha && line[..40] == sha && line[..|line|] == line;
    if n < 40 {
      var part := sha[..n];
      assert line[..n] == part;
      TrimAround("", part, "");
      assert "" + part + "" == part;
    }
  }

  lemma ValidateIsSoundExactlyWhen(w: World, s: Step)
    requires MarkerIsSound(w) && StartedOnKnown(w) && s.Validate? && Enabled(w, s)
    ensures MarkerIsSound(Next(w, s)) <==> RecordsOwnTree(w, s)
  {
    hide IsDockerRelevant, RelevantTree, IsSha, Trim, MarkerLine;
    var run := w.run.value;
    if IsLocalRun(run.env) && run.startCleanTree && run.startHead.Some? && s.written.FirstChars? {
      PartialMarker(run.startHead.value, s.written.n);
    }
  }

  /** Any step, edits of the checkout during a run and renames out of the image paths included, leaves the marker sound
      exactly when it does not record a commit whose image tree was neither built by this run nor validated before. */
  lemma StepIsSoundExactlyWhen(w: World, s: Step)
    requires MarkerIsSound(w) && StartedOnKnown(w) && Enabled(w, s)
    ensures MarkerIsSound(Next(w, s)) <==> RecordsOwnTree(w, s)
  {
    hide IsDockerRelevant, RelevantTree, IsSha, Trim, MarkerLine, Truthful;
    if s.Validate? { ValidateIsSoundExactlyWhen(w, s); }
  }

  lemma StaysOnKnown(w: World, s: Step)
    requires StartedOnKnown(w) && Enabled(w, s)
    ensures StartedOnKnown(Next(w, s))
  {
    if s.Start? {
      StartsOnCommit(w, s);
    }
  }

  lemma StaysOnCommit(w: World, s: Step)
    requires StartedOnCommit(w) && Enabled(w, s) && RenamesStay(s)
    ensures StartedOnCommit(Next(w, s))
  {
    if s.Start? {
      StartsOnCommit(w, s);
    }
  }

  /** In a disciplined step the run builds the tree it started on, so the marker stays sound. */
  lemma StepIsSound(w: World, s: Step)
    requires Sound(w) && Enabled(w, s) && Disciplined(w, s)
    ensures Sound(Next(w, s))
  {
    hide IsDockerRelevant, RelevantTree, IsSha, Trim, MarkerLine, Truthful, MarkerIsSound;
    StaysOnCommit(w, s);
    StepIsSoundExactlyWhen(w, s);
  }

  ghost predicate IsStep(w: World, s: Step, w': World) { Enabled(w, s) && w' == Next(w, s) }

  /** A history: `ws[0]`, a step, `ws[1]`, and so on. */
  ghost predicate IsHistory(ws: seq<World>, steps: seq<Step>)
  {
    && |ws| == |steps| + 1
    && forall i :: 0 <= i < |steps| ==> IsStep(ws[i], steps[i], ws[i + 1])
  }

  ghost predicate IsDisciplined(ws: seq<World>, steps: seq<Step>)
    requires |ws| == |steps| + 1
  {
    forall i :: 0 <= i < |steps| ==> Disciplined(ws[i], steps[i])
  }

  predicate IsInitial(w: World) { w.run.None? && w.marker == Missing }

  ghost predicate RenamesAlwaysStay(steps: seq<Step>) { forall i :: 0 <= i < |steps| ==> RenamesStay(steps[i]) }

  lemma {:induction false} HistoryStartsOnKnown(ws: seq<World>, steps: seq<Step>, n: nat)
    requires IsHistory(ws, steps) && IsInitial(ws[0]) && n < |ws|
    ensures StartedOnKnown(ws[n])
    decreases n
  {
    hide StartedOnKnown, Enabled, Next;
    if n > 0 {
      HistoryStartsOnKnown(ws, steps, n - 1);
      assert IsStep(ws[n - 1], steps[n - 1], ws[n]);
      StaysOnKnown(ws[n - 1], steps[n - 1]);
    } else {
      InitialIsSound(ws[0]);
    }
  }

  lemma {:induction false} HistoryStartsOnCommits(ws: seq<World>, steps: seq<Step>, n: nat)
    requires IsHistory(ws, steps) && RenamesAlwaysStay(steps) && IsInitial(ws[0]) && n < |ws|
    ensures StartedOnCommit(ws[n])
    decreases n
  {
    hide StartedOnCommit, Enabled, Next, RenamesStay;
    if n > 0 {
      HistoryStartsOnCommits(ws, steps, n - 1);
      assert IsStep(ws[n - 1], steps[n - 1], ws[n]) && RenamesStay(steps[n - 1]);
      StaysOnCommit(ws[n - 1], steps[n - 1]);
    } else {
      InitialIsSound(ws[0]);
    }
  }

  lemma InitialIsSound(w: World)
    requires IsInitial(w)
    ensures Sound(w) && StartedOnKnown(w) && StartedOnCommit(w)
  {
  }

  ghost predicate AlwaysRecordsOwnTree(ws: seq<World>, steps: seq<Step>, n: nat)
    requires n <= |steps| && |ws| == |steps| + 1
  {
    forall i :: 0 <= i < n ==> StartedOnKnown(ws[i]) && RecordsOwnTree(ws[i], steps[i])
  }

  ghost predicate AlwaysRecordsStartTree(ws: seq<World>, steps: seq<Step>, n: nat)
    requires n <= |steps| && |ws| == |steps| + 1
  {
    forall i :: 0 <= i < n ==> RecordsStartTree(ws[i], steps[i])
  }

  ghost predicate AlwaysSound(ws: seq<World>, n: nat)
    requires n < |ws|
  {
    forall i :: 0 <= i <= n ==> MarkerIsSound(ws[i])
  }

  /** In any history, whatever edits, renames, builds and aborts it interleaves, every marker names a built and validated
      image tree exactly when every recording run built the image of its commit or that one was validated before. */
  lemma {:induction false} HistoryIsSoundExactlyWhen(ws: seq<World>, steps: seq<Step>, n: nat)
    requires IsHistory(ws, steps) && IsInitial(ws[0]) && n < |ws|
    ensures AlwaysSound(ws, n) <==> AlwaysRecordsOwnTree(ws, steps, n)
    decreases n
  {
    hide StartedOnKnown, Enabled, Next, MarkerIsSound, RecordsOwnTree;
    if n > 0 {
      HistoryIsSoundExactlyWhen(ws, steps, n - 1);
      HistoryStartsOnKnown(ws, steps, n - 1);
      assert IsStep(ws[n - 1], steps[n - 1], ws[n]);
      if MarkerIsSound(ws[n - 1]) { StepIsSoundExactlyWhen(ws[n - 1], steps[n - 1]); }
    } else {
      InitialIsSound(ws[0]);
    }
  }

  lemma OwnTreeIsStartTree(w: World, s: Step)
    requires StartedOnCommit(w)
    ensures RecordsOwnTree(w, s) <==> RecordsStartTree(w, s)
  {
    hide IsSha, RelevantTree;
  }

  /** Where no rename leaves the image paths, a commit's image is what its runs started on: every marker is right exactly
      when every recording run built the tree it started on or that tree was validated before. */
  lemma StartTreesDecide(ws: seq<World>, steps: seq<Step>, n: nat)
    requires IsHistory(ws, steps) && RenamesAlwaysStay(steps) && IsInitial(ws[0]) && n < |ws|
    ensures AlwaysSound(ws, n) <==> AlwaysRecordsStartTree(ws, steps, n)
  {
    hide Enabled, Next, RenamesStay, MarkerIsSound, RecordsOwnTree, RecordsStartTree, StartedOnKnown;
    HistoryIsSoundExactlyWhen(ws, steps, n);
    forall i | 0 <= i < n ensures StartedOnKnown(ws[i]) && (RecordsOwnTree(ws[i], steps[i]) <==> RecordsStartTree(ws[i], steps[i])) {
      HistoryStartsOnCommits(ws, steps, i);
      OwnTreeIsStartTree(ws[i], steps[i]);
    }
  }

  /** In every disciplined history every recorded marker names a built and validated image tree. */
  lemma {:induction false} EveryHistoryIsSound(ws: seq<World>, steps: seq<Step>, n: nat)
    requires IsHistory(ws, steps) && IsDisciplined(ws, steps) && IsInitial(ws[0]) && n < |ws|
    ensures Sound(ws[n])
    decreases n
  {
    hide Sound, Enabled, Next, Disciplined;
    if n > 0 {
      EveryHistoryIsSound(ws, steps, n - 1);
      assert IsStep(ws[n - 1], steps[n - 1], ws[n]) && Disciplined(ws[n - 1], steps[n - 1]);
      StepIsSound(ws[n - 1], steps[n - 1]);
    } else {
      InitialIsSound(ws[0]);
    }
  }

  /** A local run that skips the build without SKIP_DOCKER_BUILD works on the image tree of the marker's commit, which
      was built and validated exactly when the marker is sound. */
  lemma SkipsValidatedExactlyWhen(w: World, s: Step)
    requires Enabled(w, s) && RenamesStay(s) && s.Start? && IsLocalRun(s.env) && !IsSkipped(s.env)
    requires !Next(w, s).run.value.dockerBuildRequired
    ensures w.marker.Holds? && Trim(w.marker.text) in w.repo.commits
    ensures RelevantTree(w.repo.work) == RelevantTree(w.repo.commits[Trim(w.marker.text)].tree)
    ensures RelevantTree(w.repo.work) in w.validated <==> MarkerIsSound(w)
  {
    SkipsExactlyWhen(s.exec, s.env, w.marker);
    SkipIsMarkerTree(w.repo, s.exec, s.renames, s.env, w.marker);
  }

  /** In every history where recording runs built their commits' images, a local run that skips the build without
      SKIP_DOCKER_BUILD works on an image tree that was already built and validated: the marker commit's. */
  lemma SkippedTreesAreValidated(ws: seq<World>, steps: seq<Step>, n: nat)
    requires IsHistory(ws, steps) && IsInitial(ws[0]) && n < |steps| && RenamesStay(steps[n])
    requires AlwaysRecordsOwnTree(ws, steps, n)
    requires steps[n].Start? && IsLocalRun(steps[n].env) && !IsSkipped(steps[n].env)
    requires !ws[n + 1].run.value.dockerBuildRequired
    ensures ws[n].marker.Holds? && Trim(ws[n].marker.text) in ws[n].repo.commits
    ensures RelevantTree(ws[n].repo.work) == RelevantTree(ws[n].repo.commits[Trim(ws[n].marker.text)].tree)
    ensures RelevantTree(ws[n].repo.work) in ws[n].validated
  {
    hide Enabled, Next, RelevantTree, MarkerIsSound, Trim, IsSha;
    HistoryIsSoundExactlyWhen(ws, steps, n);
    assert IsStep(ws[n], steps[n], ws[n + 1]) && RenamesStay(steps[n]);
    SkipsValidatedExactlyWhen(ws[n], steps[n]);
  }

  // ----- where the discipline is needed ---------------------------------------------------------

  const LOCAL: Env := Env("", "", "", "", "", "")
  const NO_RENAMES: Renames := Renames({}, {})

  /** Answers where nothing is uncommitted, `sha` is the only ancestor, and `committed` changed since it. */
  function CleanAnswers(sha: string, committed: seq<string>): (exec: Exec)
  {
    (c: Command) =>
      match c
      case IsInsideWorkTree => Output([])
      case DiffHead => Output([])
      case Untracked => Output([])
      case IsAncestor(s) => if s == sha then Output([]) else Failed
      case DiffFrom(s) => if s == sha then Output(committed) else Failed
      case _ => Failed
  }

  /** A checkout whose only commit is `sha` with tree `t`. */
  function At(sha: string, t: Tree, work: Tree): (repo: Repository)
  {
    Repository(map[sha := Commit(t, {sha})], Some(sha), work, t.Keys)
  }

  lemma CleanAnswersAreTrue(sha: string, t: Tree)
    ensures Truthful(CleanAnswers(sha, []), At(sha, t, t), NO_RENAMES)
  {
    hide IsDockerRelevant;
    var repo := At(sha, t, t);
    assert TrackedWork(repo) == t;
    assert HeadIsKnown(repo) && HeadTree(repo) == t;
  }

  /** A clean start builds without a marker, and skips with the marker of its own commit. */
  lemma CleanDecision(sha: string, committed: seq<string>)
    requires IsSha(sha) && !AnyRelevant(committed)
    ensures var d := DecideDockerBuild(CleanAnswers(sha, committed), LOCAL, Missing);
            d.cleanTree == Known(true) && d.required
    ensures !DecideDockerBuild(CleanAnswers(sha, committed), LOCAL, Holds(MarkerLine(sha))).required
  {
    hide DecideDockerBuild, IsDockerRelevant, Relevant, Trim;
    PartialMarker(sha, 41);
    assert MarkerLine(sha)[..41] == MarkerLine(sha);
    var exec := CleanAnswers(sha, committed);
    CleanExactlyWhen(exec, LOCAL, Missing);
    SkipsExactlyWhen(exec, LOCAL, Missing);
    SkipsExactlyWhen(exec, LOCAL, Holds(MarkerLine(sha)));
  }

  /** The worlds of a clean run whose checkout changes to `u` before the image is built. */
  function EditedRun(sha: string, t: Tree, u: Tree): (ws: seq<World>)
  {
    var run := Run(LOCAL, true, Some(sha), true, RelevantTree(t), None);
    var built := Some(run.(image := Some(RelevantTree(u))));
    [ World(At(sha, t, t), Missing, None, {}),
      World(At(sha, t, t), Missing, Some(run), {}),
      World(At(sha, t, u), Missing, Some(run), {}),
      World(At(sha, t, u), Missing, built, {}),
      World(At(sha, t, u), Holds(MarkerLine(sha)), None, {RelevantTree(u)}),
      World(At(sha, t, t), Holds(MarkerLine(sha)), None, {RelevantTree(u)}) ]
  }

  function CleanStart(sha: string): (s: Step) { Start(LOCAL, CleanAnswers(sha, []), Some(sha), NO_RENAMES) }

  function EditedSteps(sha: string, t: Tree, u: Tree): (steps: seq<Step>)
  {
    [CleanStart(sha), Change(At(sha, t, u)), Build, Validate(FirstChars(|MarkerLine(sha)|)), Change(At(sha, t, t))]
  }

  lemma CleanStartStep(sha: string, t: Tree)
    requires IsSha(sha)
    ensures IsStep(World(At(sha, t, t), Missing, None, {}), CleanStart(sha),
                   World(At(sha, t, t), Missing, Some(Run(LOCAL, true, Some(sha), true, RelevantTree(t), None)), {}))
  {
    CleanAnswersAreTrue(sha, t);
    CleanDecision(sha, []);
    hide DecideDockerBuild, RelevantTree, Truthful, CleanAnswers, IsSha, MarkerLine;
  }

  lemma EditedRunIsHistory(sha: string, t: Tree, u: Tree)
    requires IsSha(sha)
    ensures IsHistory(EditedRun(sha, t, u), EditedSteps(sha, t, u))
  {
    CleanStartStep(sha, t);
    assert MarkerLine(sha)[..|MarkerLine(sha)|] == MarkerLine(sha);
    hide RelevantTree, Truthful, CleanAnswers, IsSha, MarkerLine, CleanStart, Enabled, Next;
    var ws, steps := EditedRun(sha, t, u), EditedSteps(sha, t, u);
    OtherSteps(sha, t, u);
    assert forall i :: 0 <= i < 5 ==> IsStep(ws[i], steps[i], ws[i + 1]);
  }

  lemma OtherSteps(sha: string, t: Tree, u: Tree)
    ensures var ws, steps := EditedRun(sha, t, u), EditedSteps(sha, t, u);
            && IsStep(ws[1], steps[1], ws[2]) && IsStep(ws[2], steps[2], ws[3])
            && IsStep(ws[3], steps[3], ws[4]) && IsStep(ws[4], steps[4], ws[5])
  {
    assert MarkerLine(sha)[..|MarkerLine(sha)|] == MarkerLine(sha);
    hide RelevantTree, Truthful, CleanAnswers, CleanStart, MarkerLine;
  }

  /** The discipline is needed: whatever image-relevant edit is made between the start of a run and its image
      build, and put back afterwards, the next run skips over an image tree that was never built. */
  lemma EditDuringRun(sha: string, t: Tree, u: Tree)
    requires IsSha(sha) && RelevantTree(t) != RelevantTree(u)
    ensures IsHistory(EditedRun(sha, t, u), EditedSteps(sha, t, u)) && IsInitial(EditedRun(sha, t, u)[0])
    ensures var w := EditedRun(sha, t, u)[5];
            && Enabled(w, CleanStart(sha)) && Disciplined(w, CleanStart(sha))
            && !Next(w, CleanStart(sha)).run.value.dockerBuildRequired
            && RelevantTree(w.repo.work) !in w.validated
  {
    EditedRunIsHistory(sha, t, u);
    CleanAnswersAreTrue(sha, t);
    CleanDecision(sha, []);
    hide DecideDockerBuild, RelevantTree, Truthful, CleanAnswers, IsSha, MarkerLine, IsHistory;
  }

  lemma RenamedAnswersAreTrue(sha: string, sha2: string, t: Tree, u: Tree, m: Move)
    requires m.source in t && m.source !in u && m.target in u && m.target !in t && sha != sha2
    requires forall p :: Differs(t, u, p) ==> p == m.source || p == m.target
    ensures var repo := Repository(map[sha := Commit(t, {sha}), sha2 := Commit(u, {sha, sha2})], Some(sha2), u, u.Keys);
            Truthful(CleanAnswers(sha, [m.target]), repo, Renames({}, {m})) && HeadIsKnown(repo)
  {
    var repo := Repository(map[sha := Commit(t, {sha}), sha2 := Commit(u, {sha, sha2})], Some(sha2), u, u.Keys);
    hide IsDockerRelevant;
    assert TrackedWork(repo) == u && HeadTree(repo) == u;
    assert AreMoves(t, u, {m});
    assert IsListing(t, u, {m}, [m.target]) by {
      assert Differs(t, u, m.target) && m.source != m.target;
    }
  }

  /** So is the one on renames: a file git reports as renamed out of the image paths is listed under its new
      name only, and the run skips although the image lost the file. */
  lemma RenameOutOfImage(sha: string, sha2: string, content: string, m: Move) returns (repo: Repository)
    requires IsSha(sha) && sha != sha2 && IsDockerRelevant(m.source) && !IsDockerRelevant(m.target)
    ensures Truthful(CleanAnswers(sha, [m.target]), repo, Renames({}, {m})) && sha in repo.commits
    ensures repo.commits[sha].tree == map[m.source := content] && repo.work == map[m.target := content]
    ensures !DecideDockerBuild(CleanAnswers(sha, [m.target]), LOCAL, Holds(MarkerLine(sha))).required
    ensures RelevantTree(repo.work) != RelevantTree(repo.commits[sha].tree)
  {
    var t: Tree, u: Tree := map[m.source := content], map[m.target := content];
    assert m.source in RelevantTree(t) && m.source !in RelevantTree(u);
    assert !AnyRelevant([m.target]);
    hide DecideDockerBuild, IsDockerRelevant, IsSha, RelevantTree, Truthful, CleanAnswers, AnyRelevant;
    repo := Repository(map[sha := Commit(t, {sha}), sha2 := Commit(u, {sha, sha2})], Some(sha2), u, u.Keys);
    CleanDecision(sha, [m.target]);
    RenamedAnswersAreTrue(sha, sha2, t, u, m);
  }
}
