/** Replaying a source repository's new commits onto a copy of it. */
module CommitReplay {
  import opened Text

  /** A path by its segments. */
  type Path = seq<string>

  type Tree = map<Path, string>

  datatype Commit = Commit(subject: string, tree: Tree)

  datatype Status = Added | Modified | Deleted

  datatype Change = Change(status: Status, path: Path)

  /** Failed: reported and undone. Crashed: an exception from the file system, nothing undone. */
  datatype Outcome = Applied | Failed | Crashed

  // ----- trees and changes ----------------------------------------------------------------------

  /** The directories above a path. */
  function Above(p: Path): (dirs: set<Path>) { set i | 0 < i < |p| :: p[..i] }

  function AboveAll(paths: set<Path>): (dirs: set<Path>) { set p, i | p in paths && 0 < i < |p| :: p[..i] }

  /** No file stands where another file's directory would have to be. */
  predicate IsTree(t: Tree) { t.Keys !! AboveAll(t.Keys) }

  /** What `git diff-tree` lists between two trees: every difference once, a directory's path before those below it. */
  predicate IsDiff(changes: seq<Change>, was: Tree, now: Tree)
  {
    && (forall i, j :: 0 <= i < j < |changes| ==>
      changes[i].path != changes[j].path && changes[j].path !in Above(changes[i].path))
    && (forall i :: 0 <= i < |changes| ==> IsChange(changes[i], was, now))
    && (forall p :: p in was.Keys + now.Keys && p !in Paths(changes) ==> p in was && p in now && was[p] == now[p])
  }

  predicate IsChange(c: Change, was: Tree, now: Tree)
  {
    match c.status
    case Added => c.path !in was && c.path in now
    case Deleted => c.path in was && c.path !in now
    case Modified => c.path in was && c.path in now && was[c.path] != now[c.path]
  }

  function Paths(changes: seq<Change>): (paths: set<Path>) { set c | c in changes :: c.path }

  /** The paths a commit writes. */
  function Writes(was: Tree, now: Tree): (paths: set<Path>)
  {
    set p | p in now && (p !in was || was[p] != now[p])
  }

  /** The tree on the way from `was` to `now`, with the paths in `done` changed. */
  function Midway(was: Tree, now: Tree, done: set<Path>): (t: Tree)
  {
    map p | p in was.Keys + now.Keys && (if p in done then p in now else p in was) :: if p in done then now[p] else was[p]
  }

  // ----- choosing the commits -------------------------------------------------------------------

  /** The subjects of a history, as they are compared; empty ones are not looked for. */
  function Subjects(history: seq<Commit>): (subjects: set<string>)
  {
    set c | c in history && Trim(c.subject) != "" :: Trim(c.subject)
  }

  /** The source's commits after the newest whose subject the destination has, oldest first. */
  predicate IsNew(commits: seq<Commit>, source: seq<Commit>, known: set<string>)
  {
    && |commits| <= |source|
    && var b := |source| - |commits|;
    && commits == source[b..]
    && (b > 0 ==> Trim(source[b - 1].subject) in known)
    && forall c :: c in commits ==> Trim(c.subject) !in known
  }

  method GetCommitsAfter(source: seq<Commit>, known: set<string>) returns (commits: seq<Commit>)
    ensures IsNew(commits, source, known)
  {
    hide Trim;
    var newest := [];
    var i := |source|;
    while i > 0
      invariant 0 <= i <= |source| && |newest| == |source| - i
      invariant forall k :: 0 <= k < |newest| ==> newest[k] == source[|source| - 1 - k]
      invariant forall c :: c in newest ==> Trim(c.subject) !in known
    {
      if Trim(source[i - 1].subject) in known { break; }
      newest := newest + [source[i - 1]];
      i := i - 1;
    }
    commits := seq(|newest|, k requires 0 <= k < |newest| => newest[|newest| - 1 - k]);
    assert commits == source[i..];
  }

  lemma NewAt(commits: seq<Commit>, source: seq<Commit>, known: set<string>, n: nat)
    requires IsNew(commits, source, known) && n < |commits|
    ensures Trim(source[|source| - 1 - n].subject) !in known
  {
    hide Trim;
    assert commits[|commits| - 1 - n] == source[|source| - 1 - n];
  }

  lemma NewIsUnique(a: seq<Commit>, b: seq<Commit>, source: seq<Commit>, known: set<string>)
    requires IsNew(a, source, known) && IsNew(b, source, known)
    ensures a == b
  {
    hide Trim;
    var m: nat, n: nat := |a|, |b|;
    if m < n {
      NewAt(b, source, known, m);
    } else if n < m {
      NewAt(a, source, known, n);
    }
  }

  // ----- applying one commit --------------------------------------------------------------------

  lemma NoneMissing(writes: set<Path>, dirs: set<Path>, missing: set<Path>)
    ensures writes * (dirs + missing) == {} <==> writes * dirs == {} && writes * missing == {}
  {
    assert writes * (dirs + missing) == writes * dirs + writes * missing;
  }

  class Destination {
    var history: seq<Commit>
    /** The files and directories on disk. */
    var files: Tree
    var dirs: set<Path>

    ghost predicate IsConsistent()
      reads this
    {
      history != [] && AboveAll(files.Keys) <= dirs && files.Keys !! dirs
    }

    /** Nothing to commit. */
    ghost predicate IsClean()
      reads this
    {
      IsConsistent() && files == Head()
    }

    function Head(): (tree: Tree)
      requires history != []
      reads this
    {
      history[|history| - 1].tree
    }

    constructor (history: seq<Commit>, dirs: set<Path>)
      requires history != [] && AboveAll(history[|history| - 1].tree.Keys) <= dirs && history[|history| - 1].tree.Keys !! dirs
      ensures IsClean() && this.history == history && this.dirs == dirs
    {
      this.history, this.dirs, files := history, dirs, history[|history| - 1].tree;
    }

    /** `git reset --hard HEAD` and `git clean -fd`: what is on disk is what HEAD holds. */
    method Reset()
      requires history != [] && IsTree(Head())
      modifies this`files, this`dirs
      ensures IsClean()
    {
      files, dirs := Head(), AboveAll(Head().Keys);
    }

    /** Writes the changes one by one. The contents under `missing` cannot be read from the source. */
    method WriteChanges(changes: seq<Change>, now: Tree, missing: set<Path>) returns (outcome: Outcome)
      requires IsClean() && IsTree(Head()) && IsTree(now) && IsDiff(changes, Head(), now)
      modifies this`files, this`dirs
      ensures outcome == Applied ==>
        IsConsistent() && files == now && dirs == old(dirs) + AboveAll(Writes(old(files), now))
      ensures outcome == Failed ==> IsClean() && Writes(old(files), now) * missing != {}
      ensures outcome == Crashed ==> Writes(old(files), now) * old(dirs) != {}
      ensures Writes(old(files), now) * (old(dirs) + missing) != {} ==> outcome != Applied
    {
      hide Above, AboveAll, IsTree, IsDiff, IsChange, Paths, Writes, Midway;
      ghost var was, before := files, dirs;
      ghost var done: set<Path> := {};
      var i := 0;
      NothingDone(was, now, changes);
      while i < |changes|
        invariant 0 <= i <= |changes| && IsConsistent() && done == Paths(changes[..i])
        invariant files == Midway(was, now, done) && dirs == before + AboveAll(Writes(was, now) * done)
        invariant (Writes(was, now) * done) * (before + missing) == {}
      {
        var c := changes[i];
        NextPath(was, now, changes, i);
        if c.status == Deleted {
          DeletedStep(was, now, c, done);
          AboveFewer(files.Keys, {c.path});
          assert (files - {c.path}).Keys == files.Keys - {c.path};
          if c.path in files { files := files - {c.path}; }
        } else {
          WrittenStep(was, now, c, done);
          if c.path in missing {
            assert c.path in Writes(was, now) * missing;
            Reset();
            return Failed;
          }
          ParentsAreFree(was, now, changes, i);
          if Above(c.path) * files.Keys != {} { return Crashed; }
          AboveMore(files.Keys, {c.path});
          AboveOne(c.path);
          dirs := dirs + Above(c.path);
          if c.path in dirs { return Crashed; }
          assert files[c.path := now[c.path]].Keys == files.Keys + {c.path};
          files := files[c.path := now[c.path]];
        }
        done := done + {c.path};
        i := i + 1;
      }
      assert changes[..i] == changes;
      AllDone(was, now, changes);
      outcome := Applied;
    }

    /** Replays one commit: its changes, then a commit of the same subject, unless there is nothing to commit. */
    method ApplyCommit(commit: Commit, changes: seq<Change>, missing: set<Path>, commitSucceeds: bool)
      returns (outcome: Outcome)
      requires IsClean() && IsTree(Head()) && IsTree(commit.tree) && IsDiff(changes, Head(), commit.tree)
      modifies this
      ensures outcome == Applied ==>
        && IsClean() && Head() == commit.tree
        && history == old(history) + (if commit.tree == old(Head()) then [] else [commit])
        && dirs == old(dirs) + AboveAll(Writes(old(Head()), commit.tree))
      ensures outcome == Failed ==> IsClean() && history == old(history)
      ensures outcome == Crashed ==> history == old(history)
      ensures Writes(old(Head()), commit.tree) * old(dirs) == {} ==>
        outcome == if Writes(old(Head()), commit.tree) * missing != {} || (commit.tree != old(Head()) && !commitSucceeds)
                   then Failed else Applied
      ensures Writes(old(Head()), commit.tree) * old(dirs) != {} ==>
        outcome != Applied && (Writes(old(Head()), commit.tree) * missing == {} ==> outcome == Crashed)
    {
      hide Above, AboveAll, IsTree, IsDiff, Writes;
      NoneMissing(Writes(old(Head()), commit.tree), old(dirs), missing);
      outcome := WriteChanges(changes, commit.tree, missing);
      if outcome != Applied || files == Head() { return; }
      if !commitSucceeds {
        Reset();
        return Failed;
      }
      history := history + [commit];
    }

    /** Replays the source's `k`th commit onto the tree of the one before it. */
    method ReplayNext(source: seq<Commit>, changes: seq<seq<Change>>, missing: seq<set<Path>>,
                      refused: set<nat>, k: nat)
      returns (outcome: Outcome)
      requires IsClean() && IsLinear(source, changes) && |missing| == |source| && 0 < k < |source| && source[k - 1].tree == Head()
      modifies this
      ensures outcome == Applied ==>
        && IsClean() && Head() == source[k].tree
        && history == old(history) + Copied(source, k)
        && dirs == old(dirs) + AboveAll(Writes(source[k - 1].tree, source[k].tree))
      ensures outcome == Failed ==> IsClean() && Head() == source[k - 1].tree
      ensures outcome != Applied ==> history == old(history)
      ensures Succeeds(missing, refused, k) ==>
        outcome == if Writes(source[k - 1].tree, source[k].tree) * old(dirs) != {} then Crashed else Applied
    {
      hide IsDiff, IsTree, AboveAll, Writes;
      outcome := ApplyCommit(source[k], changes[k], missing[k], k !in refused);
    }

    /** The destination after the source's commits from `b` to below `k` were replayed onto `history` and `dirs`. */
    ghost predicate Reached(source: seq<Commit>, before: seq<Commit>, dirsBefore: set<Path>, b: nat, k: nat)
      requires 0 < b <= k <= |source|
      reads this
    {
      && IsClean() && Head() == source[k - 1].tree
      && history == before + Copies(source, b, k) && dirs == DirsBefore(source, b, k, dirsBefore)
    }

    lemma StartReached(source: seq<Commit>, b: nat)
      requires IsClean() && 0 < b <= |source| && source[b - 1].tree == Head()
      ensures Reached(source, history, dirs, b, b)
    {
      hide IsClean, IsConsistent, Head, Copies, DirsBefore;
      NothingReplayed(source, b, dirs);
      assert history + [] == history;
    }

    lemma ReachedIsClean(source: seq<Commit>, before: seq<Commit>, dirsBefore: set<Path>, b: nat, k: nat)
      requires 0 < b <= k <= |source| && Reached(source, before, dirsBefore, b, k)
      ensures history != [] && IsClean() && Head() == source[k - 1].tree && history == before + Copies(source, b, k)
    {
      hide IsTree, AboveAll, Copies, DirsBefore;
    }

    method ReplayStep(source: seq<Commit>, changes: seq<seq<Change>>, missing: seq<set<Path>>,
                      refused: set<nat>, ghost before: seq<Commit>, ghost dirsBefore: set<Path>, ghost b: nat, k: nat)
      returns (outcome: Outcome)
      requires IsLinear(source, changes) && |missing| == |source| && 0 < b <= k < |source| && Reached(source, before, dirsBefore, b, k)
      modifies this
      ensures outcome == Applied ==> Reached(source, before, dirsBefore, b, k + 1)
      ensures outcome != Applied ==> history == before + Copies(source, b, k)
      ensures outcome == Failed ==> IsClean() && Head() == source[k - 1].tree
      ensures Succeeds(missing, refused, k) ==>
        outcome == if Clashes(source, b, k, dirsBefore) then Crashed else Applied
    {
      hide IsLinear, AboveAll, Writes, Succeeds, Copies, Copied, DirsBefore;
      OneMoreReplayed(source, before, b, k, dirsBefore);
      outcome := ReplayNext(source, changes, missing, refused, k);
    }

    /** The replay loop, from the source's commit `b` on. */
    method ReplayFrom(source: seq<Commit>, changes: seq<seq<Change>>, missing: seq<set<Path>>,
                      refused: set<nat>, b: nat)
      returns (outcome: Outcome, k: nat)
      requires IsClean() && IsLinear(source, changes) && |missing| == |source| && 0 < b <= |source| && source[b - 1].tree == Head()
      modifies this
      ensures b <= k <= |source| && history == old(history) + Copies(source, b, k)
      ensures outcome != Crashed ==> IsClean() && Head() == source[k - 1].tree
      ensures outcome == Applied ==> k == |source|
      ensures NothingFails(source, missing, refused, b) ==>
        outcome == if HasClash(source, b, old(dirs)) then Crashed else Applied
    {
      hide *;
      ghost var before, dirsBefore := history, dirs;
      k := b;
      StartReached(source, b);
      NoneUnclashed(source, b, dirs);
      while k < |source|
        invariant b <= k <= |source| && Reached(source, before, dirsBefore, b, k)
        invariant NothingFails(source, missing, refused, b) ==> NoClash(source, b, k, dirsBefore)
      {
        outcome := ReplayStep(source, changes, missing, refused, before, dirsBefore, b, k);
        OneMoreUnclashed(source, missing, refused, b, k, dirsBefore);
        if outcome != Applied { return; }
        k := k + 1;
      }
      ReachedIsClean(source, before, dirsBefore, b, k);
      outcome := Applied;
    }

    /** Replays every new commit, stopping at the first that fails. `b` is where the two histories part: the source's
        commit below it has a subject the destination has, and the destination's tree. */
    method Sync(source: seq<Commit>, changes: seq<seq<Change>>, missing: seq<set<Path>>, refused: set<nat>,
                ghost b: nat) returns (outcome: Outcome, replayed: nat)
      requires IsClean() && IsLinear(source, changes) && |missing| == |source|
      requires 0 < b <= |source| && IsNew(source[b..], source, Subjects(history)) && source[b - 1].tree == Head()
      modifies this
      ensures b + replayed <= |source| && history == old(history) + Copies(source, b, b + replayed)
      ensures outcome != Crashed ==> IsClean() && Head() == source[b + replayed - 1].tree
      ensures outcome == Applied ==> b + replayed == |source|
      ensures NothingFails(source, missing, refused, b) ==>
        outcome == if HasClash(source, b, old(dirs)) then Crashed else Applied
    {
      hide IsNew, IsLinear, AboveAll, Writes, IsClean, NothingFails, Head, Subjects, Copies, Clashes;
      var commits := GetCommitsAfter(source, Subjects(history));
      NewIsUnique(commits, source[b..], source, Subjects(history));
      var first := |source| - |commits|;
      var k;
      outcome, k := ReplayFrom(source, changes, missing, refused, first);
      replayed := k - first;
    }
  }

  /** What the destination gets for the `k`th commit: nothing if it changes no file. */
  function Copied(source: seq<Commit>, k: nat): (copies: seq<Commit>)
    requires 0 < k < |source|
  {
    if IsNeutral(source, k) then [] else [source[k]]
  }

  /** A linear history: each commit's changes are those from the one before it. */
  predicate IsLinear(source: seq<Commit>, changes: seq<seq<Change>>)
  {
    && |changes| == |source|
    && (forall k :: 0 <= k < |source| ==> IsTree(source[k].tree))
    && (forall k :: 0 < k < |source| ==> IsDiff(changes[k], source[k - 1].tree, source[k].tree))
  }

  /** A commit that changes no file. */
  predicate IsNeutral(source: seq<Commit>, k: nat)
    requires 0 < k < |source|
  {
    source[k].tree == source[k - 1].tree
  }

  /** The commits the destination gets: those that change a file. */
  function Copies(source: seq<Commit>, from: nat, end: nat): (copies: seq<Commit>)
    requires 0 < from <= end <= |source|
  {
    if from == end then []
    else Copies(source, from, end - 1) + Copied(source, end - 1)
  }

  /** The directories on disk before the `k`th commit is replayed: none is ever removed. */
  function DirsBefore(source: seq<Commit>, from: nat, k: nat, dirs: set<Path>): (before: set<Path>)
    requires 0 < from <= k <= |source|
  {
    if from == k then dirs
    else DirsBefore(source, from, k - 1, dirs) + AboveAll(Writes(source[k - 2].tree, source[k - 1].tree))
  }

  lemma NothingReplayed(source: seq<Commit>, from: nat, dirs: set<Path>)
    requires 0 < from <= |source|
    ensures Copies(source, from, from) == [] && DirsBefore(source, from, from, dirs) == dirs
  {
  }

  lemma OneMoreReplayed(source: seq<Commit>, history: seq<Commit>, from: nat, k: nat, dirs: set<Path>)
    requires 0 < from <= k < |source|
    ensures (history + Copies(source, from, k)) + Copied(source, k) == history + Copies(source, from, k + 1)
    ensures Copies(source, from, k + 1) == Copies(source, from, k) + Copied(source, k)
    ensures DirsBefore(source, from, k + 1, dirs)
         == DirsBefore(source, from, k, dirs) + AboveAll(Writes(source[k - 1].tree, source[k].tree))
  {
    hide AboveAll, Writes, Copied;
  }

  /** The `k`th commit writes a file where there is, or once was, a directory. */
  predicate Clashes(source: seq<Commit>, from: nat, k: nat, dirs: set<Path>)
    requires 0 < from <= k < |source|
  {
    Writes(source[k - 1].tree, source[k].tree) * DirsBefore(source, from, k, dirs) != {}
  }

  predicate HasClash(source: seq<Commit>, from: nat, dirs: set<Path>)
    requires 0 < from <= |source|
  {
    exists k :: from <= k < |source| && Clashes(source, from, k, dirs)
  }

  predicate NoClash(source: seq<Commit>, from: nat, k: nat, dirs: set<Path>)
    requires 0 < from <= k <= |source|
  {
    forall i :: from <= i < k ==> !Clashes(source, from, i, dirs)
  }

  lemma NoneUnclashed(source: seq<Commit>, from: nat, dirs: set<Path>)
    requires 0 < from <= |source|
    ensures NoClash(source, from, from, dirs)
    ensures NoClash(source, from, |source|, dirs) <==> !HasClash(source, from, dirs)
  {
    hide Clashes;
  }

  lemma OneMoreUnclashed(source: seq<Commit>, missing: seq<set<Path>>, refused: set<nat>, from: nat, k: nat,
                         dirs: set<Path>)
    requires 0 < from <= k < |source|
    ensures NothingFails(source, missing, refused, from) ==> Succeeds(missing, refused, k)
    ensures NoClash(source, from, k, dirs) && !Clashes(source, from, k, dirs) ==> NoClash(source, from, k + 1, dirs)
    ensures Clashes(source, from, k, dirs) ==> HasClash(source, from, dirs)
  {
    hide Clashes, Succeeds;
  }

  /** Every content of the `k`th commit can be read, and the commit made. */
  predicate Succeeds(missing: seq<set<Path>>, refused: set<nat>, k: nat)
  {
    k < |missing| && missing[k] == {} && k !in refused
  }

  /** Every content can be read and every commit made. */
  predicate NothingFails(source: seq<Commit>, missing: seq<set<Path>>, refused: set<nat>, from: nat)
  {
    forall k :: from <= k < |source| ==> Succeeds(missing, refused, k)
  }

  // ----- running it again -----------------------------------------------------------------------

  lemma {:induction false} CopiesAre(source: seq<Commit>, from: nat, end: nat, c: Commit)
    requires 0 < from <= end <= |source|
    ensures c in Copies(source, from, end) <==> exists k :: from <= k < end && c == source[k] && !IsNeutral(source, k)
    decreases end
  {
    if from != end { CopiesAre(source, from, end - 1, c); }
  }

  /** A second run finds nothing to do, exactly when the newest commit changed a file and has a subject. */
  lemma RerunFindsNothing(source: seq<Commit>, history: seq<Commit>, b: nat)
    requires 0 < b < |source| && IsNew(source[b..], source, Subjects(history))
    requires forall i, j :: 0 <= i < j < |source| ==> Trim(source[i].subject) != Trim(source[j].subject)
    ensures var last := |source| - 1;
      IsNew([], source, Subjects(history + Copies(source, b, |source|)))
      <==> !IsNeutral(source, last) && Trim(source[last].subject) != ""
  {
    hide Trim;
    var (last, copies) := (|source| - 1, Copies(source, b, |source|));
    assert source[last] == source[b..][last - b];
    assert source[|source|..] == [];
    var c := source[last];
    forall d | d in copies && Trim(d.subject) == Trim(c.subject) ensures d == c && !IsNeutral(source, last) {
      CopiesAre(source, b, |source|, d);
      var k :| b <= k < |source| && d == source[k] && !IsNeutral(source, k);
      assert k == last;
    }
    CopiesAre(source, b, |source|, c);
  }

  lemma NothingDone(was: Tree, now: Tree, changes: seq<Change>)
    ensures Midway(was, now, {}) == was && Paths(changes[..0]) == {} && AboveAll(Writes(was, now) * {}) == {}
  {
  }

  lemma NextPath(was: Tree, now: Tree, changes: seq<Change>, i: nat)
    requires i < |changes| && IsDiff(changes, was, now)
    ensures Paths(changes[..i + 1]) == Paths(changes[..i]) + {changes[i].path} && changes[i].path !in Paths(changes[..i])
    ensures IsChange(changes[i], was, now)
  {
    assert changes[..i + 1] == changes[..i] + [changes[i]];
  }

  lemma DeletedStep(was: Tree, now: Tree, c: Change, done: set<Path>)
    requires IsChange(c, was, now) && c.status == Deleted && c.path !in done
    ensures c.path in Midway(was, now, done)
    ensures Midway(was, now, done + {c.path}) == Midway(was, now, done) - {c.path}
    ensures Writes(was, now) * (done + {c.path}) == Writes(was, now) * done
  {
  }

  lemma AboveMore(paths: set<Path>, more: set<Path>)
    ensures AboveAll(paths + more) == AboveAll(paths) + AboveAll(more)
  {
  }

  lemma AboveFewer(paths: set<Path>, less: set<Path>)
    ensures AboveAll(paths - less) <= AboveAll(paths)
  {
  }

  lemma AboveOne(p: Path)
    ensures AboveAll({p}) == Above(p) && p !in Above(p)
  {
  }

  /** No file on the way stands where a directory above a path to be written has to be. */
  lemma ParentsAreFree(was: Tree, now: Tree, changes: seq<Change>, i: nat)
    requires IsDiff(changes, was, now) && IsTree(now) && i < |changes| && changes[i].status != Deleted
    ensures Above(changes[i].path) * Midway(was, now, Paths(changes[..i])).Keys == {}
  {
    var (p, done) := (changes[i].path, Paths(changes[..i]));
    assert IsChange(changes[i], was, now);
    AboveOne(p);
    forall a | a in Above(p) ensures a !in Midway(was, now, done) {
      assert a in AboveAll(now.Keys);
      if a in was {
        assert a in Paths(changes);
        var c :| c in changes && c.path == a;
        var j :| 0 <= j < |changes| && changes[j] == c;
        assert j < i && changes[..i][j] == c;
      }
    }
  }

  lemma WrittenStep(was: Tree, now: Tree, c: Change, done: set<Path>)
    requires IsChange(c, was, now) && c.status != Deleted && c.path !in done && IsTree(now)
    ensures c.path in now && c.path in Writes(was, now)
    ensures Midway(was, now, done + {c.path}) == Midway(was, now, done)[c.path := now[c.path]]
    ensures Writes(was, now) * (done + {c.path}) == Writes(was, now) * done + {c.path}
    ensures AboveAll(Writes(was, now) * (done + {c.path})) == AboveAll(Writes(was, now) * done) + Above(c.path)
    ensures c.path !in AboveAll(Writes(was, now) * done) + Above(c.path)
  {
    AboveMore(Writes(was, now) * done, {c.path});
    AboveOne(c.path);
    assert Writes(was, now) * (done + {c.path}) == Writes(was, now) * done + {c.path};
    assert Writes(was, now) <= now.Keys;
    assert c.path !in AboveAll(now.Keys);
  }

  lemma AllDone(was: Tree, now: Tree, changes: seq<Change>)
    requires IsDiff(changes, was, now)
    ensures Midway(was, now, Paths(changes)) == now
    ensures Writes(was, now) * Paths(changes) == Writes(was, now)
  {
  }
}
