/** Per-repository processing of `org_analysis/hercules_statistics.py`: measuring a
    repository (`dir_size`) and computing its statistics file (`repository_statistics`). */
module HerculesStatistics {
  import opened Wrappers
  import opened Text
  import opened Paths
  import opened Host

  /** `ReportStat` without its wall-clock `duration`. */
  datatype ReportStat = ReportStat(repoSize: nat, err: string, repository: string)

  /** What `repository_statistics` returns: the report and the statistics path, if any. */
  type Report = (ReportStat, Option<string>)

  /** One step of `os.walk`: a directory and the names of the files directly in it. */
  type WalkStep = (string, seq<string>)

  /** The paths `dir_size` visits, in walk order. */
  function WalkPaths(walk: seq<WalkStep>): seq<string> {
    if walk == [] then []
    else
      var (dirpath, names) := walk[|walk| - 1];
      WalkPaths(walk[..|walk| - 1]) + DirPaths(dirpath, names)
  }

  /** The paths of the files `names` directly in `dirpath`. */
  function DirPaths(dirpath: string, names: seq<string>): (r: seq<string>)
    ensures |r| == |names| && forall k :: 0 <= k < |names| ==> r[k] == PathJoin(dirpath, names[k])
  {
    seq(|names|, k requires 0 <= k < |names| => PathJoin(dirpath, names[k]))
  }

  lemma WalkPathsStep(walk: seq<WalkStep>, i: nat)
    requires i < |walk|
    ensures WalkPaths(walk[..i + 1]) == WalkPaths(walk[..i]) + DirPaths(walk[i].0, walk[i].1)
  {
    assert walk[..i + 1][..i] == walk[..i];
  }

  lemma SumSizesStep(w: World, done: seq<string>, here: seq<string>, j: nat)
    requires j < |here|
    ensures SumSizes(w, done + here[..j + 1]) == SumSizes(w, done + here[..j]) + SizeOrZero(w, here[j])
  {
    assert (done + here[..j + 1])[..|done| + j] == done + here[..j];
  }

  /** `os.path.getsize(p)`, where a lookup that raises counts 0. */
  function SizeOrZero(w: World, p: string): nat {
    if IsFile(w, p) then w.files[p].size.value else 0
  }

  /** The sum of the sizes of `paths`, lookups that raise counting 0. */
  function SumSizes(w: World, paths: seq<string>): nat {
    if paths == [] then 0 else SumSizes(w, paths[..|paths| - 1]) + SizeOrZero(w, paths[|paths| - 1])
  }

  lemma {:induction false} SumSizesAppend(w: World, a: seq<string>, b: seq<string>)
    ensures SumSizes(w, a + b) == SumSizes(w, a) + SumSizes(w, b)
    decreases |b|
  {
    if b == [] {
      assert a + b == a;
    } else {
      assert (a + b)[..|a + b| - 1] == a + b[..|b| - 1];
      SumSizesAppend(w, a, b[..|b| - 1]);
    }
  }

  /** The paths whose size can be read. */
  function Readable(w: World, paths: seq<string>): (r: seq<string>)
    ensures forall i :: 0 <= i < |r| ==> IsFile(w, r[i]) && r[i] in paths
  {
    if paths == [] then []
    else Readable(w, paths[..|paths| - 1]) + (if IsFile(w, paths[|paths| - 1]) then [paths[|paths| - 1]] else [])
  }

  /** Entries whose size lookup raises contribute nothing: the sum is the sum over the readable files. */
  lemma {:induction false} SumSizesReadable(w: World, paths: seq<string>)
    ensures SumSizes(w, paths) == SumSizes(w, Readable(w, paths))
    decreases |paths|
  {
    if paths != [] {
      var init, last := paths[..|paths| - 1], paths[|paths| - 1];
      SumSizesReadable(w, init);
      SumSizesAppend(w, Readable(w, init), if IsFile(w, last) then [last] else []);
      if IsFile(w, last) {
        assert ([last])[..0] == [];
      }
    }
  }

  /** `dir_size(loc)`, given the listing `os.walk(loc)` produces: the nested loop adds up the
      size of every file it can stat and skips the ones whose lookup raises. */
  method DirSize(m: Machine, walk: seq<WalkStep>) returns (total: nat)
    ensures total == SumSizes(m.State(), WalkPaths(walk))
  {
    ghost var w := m.State();
    total := 0;
    for i := 0 to |walk|
      invariant total == SumSizes(w, WalkPaths(walk[..i]))
    {
      var (dirpath, filenames) := walk[i];
      ghost var done := WalkPaths(walk[..i]);
      ghost var here := DirPaths(dirpath, filenames);
      assert done + here[..0] == done;
      for j := 0 to |filenames|
        invariant total == SumSizes(w, done + here[..j])
      {
        var fp := PathJoin(dirpath, filenames[j]);
        SumSizesStep(w, done, here, j);
        if fp in m.files && m.files[fp].size.Some? {
          total := total + m.files[fp].size.value;
        }
      }
      assert here[..|filenames|] == here;
      WalkPathsStep(walk, i);
    }
    assert walk[..|walk|] == walk;
  }

  /** The admission test: the source rejects when `repo_size > size_limit > 0`. */
  predicate Admitted(size: int, limit: int) {
    !(size > limit > 0)
  }

  /** A limit of zero or below admits everything; a positive limit admits exactly the sizes
      up to it, so admission is monotone in the size. */
  lemma AdmittedMonotone(s1: int, s2: int, limit: int)
    ensures limit <= 0 ==> Admitted(s1, limit)
    ensures limit > 0 ==> (Admitted(s1, limit) <==> s1 <= limit)
    ensures s1 <= s2 && Admitted(s2, limit) ==> Admitted(s1, limit)
  {
  }

  /** `repo_url.split("/")[-2:]`. */
  function LastTwo(parts: seq<string>): seq<string> {
    if |parts| <= 2 then parts else parts[|parts| - 2..]
  }

  /** `os.path.join(output_dir, *repo_url.split("/")[-2:])`. */
  function ResultDir(outputDir: string, repoUrl: string): string {
    PathJoinAll(outputDir, LastTwo(SplitOn(repoUrl, '/')))
  }

  const StatFileName := "statistics.pb"

  function StatLoc(outputDir: string, repoUrl: string): string {
    PathJoin(ResultDir(outputDir, repoUrl), StatFileName)
  }

  /** The pieces of a URL ending in `<owner>/<name>` end with those two. */
  lemma SplitUrl(prefix: string, owner: string, name: string)
    requires '/' !in owner && '/' !in name
    ensures SplitOn(prefix + "/" + owner + "/" + name, '/') == SplitOn(prefix, '/') + [owner, name]
  {
    var tail := owner + ['/'] + name;
    assert prefix + "/" + owner + "/" + name == prefix + ['/'] + tail;
    SplitAroundSep(prefix, '/', tail);
    SplitAroundSep(owner, '/', name);
    SplitOfPiece(owner, '/');
    SplitOfPiece(name, '/');
  }

  /** The last two pieces of a URL ending in `<owner>/<name>`. */
  lemma LastTwoOfUrl(prefix: string, owner: string, name: string)
    requires '/' !in owner && '/' !in name
    ensures LastTwo(SplitOn(prefix + "/" + owner + "/" + name, '/')) == [owner, name]
  {
    SplitUrl(prefix, owner, name);
    var head := SplitOn(prefix, '/');
    assert (head + [owner, name])[|head|..] == [owner, name];
  }

  /** For a URL ending in `<owner>/<name>`, the statistics land in
      `<output_dir>/<owner>/<name>/statistics.pb`. */
  lemma StatLocLayout(outputDir: string, prefix: string, owner: string, name: string)
    requires outputDir != "" && outputDir[|outputDir| - 1] != '/'
    requires owner != "" && '/' !in owner && name != "" && '/' !in name
    ensures StatLoc(outputDir, prefix + "/" + owner + "/" + name) == outputDir + "/" + owner + "/" + name + "/" + StatFileName
  {
    LastTwoOfUrl(prefix, owner, name);
    assert !IsRooted(owner) && !IsRooted(name) && !IsRooted(StatFileName);
    var d1 := PathJoin(outputDir, owner);
    assert d1 == outputDir + "/" + owner;
    var d2 := PathJoin(d1, name);
    assert d2 == outputDir + "/" + owner + "/" + name;
    assert PathJoinAll(outputDir, [owner, name]) == PathJoinAll(d1, [name]);
    assert PathJoinAll(d1, [name]) == PathJoinAll(d2, []);
  }

  /** The primary hercules command. */
  function AnalysisCommand(herculesExec: string, repoLoc: string): seq<string> {
    [herculesExec, "--pb", "--burndown", "--burndown-people", "--devs", "--couples",
     "--hibernation-distance=1000", "--skip-blacklist", repoLoc]
  }

  /** The fallback: the same command restricted to first-parent history. */
  function FallbackCommand(herculesExec: string, repoLoc: string): seq<string> {
    AnalysisCommand(herculesExec, repoLoc) + ["--first-parent"]
  }

  function PathError(p: string): string {
    "Absolute path expected, got " + p
  }

  function TooBigError(repoLoc: string, size: nat, limit: int): string {
    "Repository " + repoLoc + " is too big: " + NatToString(size) + " bytes > " + IntToString(limit) + " - skipping"
  }

  /** The message of a failed run; the text of the `CalledProcessError` is cut down to its exit status. */
  function RunError(repoLoc: string, status: int): string {
    "Repository " + repoLoc + " failed with exception non-zero exit status " + IntToString(status)
      + " at step of calculating statistics"
  }

  /** The arguments of one `repository_statistics` call. */
  datatype Request = Request(repoUrl: string, repoLoc: string, outputDir: string, herculesExec: string,
                             sizeLimit: int, force: bool)

  predicate ValidPaths(w: World, q: Request) {
    IsDir(w, q.repoLoc) && IsAbsolute(q.repoLoc) && IsAbsolute(q.outputDir)
  }

  /** The paths are valid, no earlier result is reused and the size is admitted: the result
      directory is created and hercules runs. */
  predicate Due(w: World, q: Request, walk: seq<WalkStep>) {
    ValidPaths(w, q) && !(IsFile(w, StatLoc(q.outputDir, q.repoUrl)) && !q.force)
    && Admitted(SumSizes(w, WalkPaths(walk)), q.sizeLimit)
  }

  /** What `repository_statistics` does to the environment and returns, given the listing of
      the repository directory. */
  function RepoStatsResult(w: World, run: Oracle, q: Request, walk: seq<WalkStep>): (Outcome<Report>, World) {
    if !IsDir(w, q.repoLoc) || !IsAbsolute(q.repoLoc) then (Raised(PathError(q.repoLoc)), w)
    else if !IsAbsolute(q.outputDir) then (Raised(PathError(q.outputDir)), w)
    else
      var resultDir := ResultDir(q.outputDir, q.repoUrl);
      var statLoc := PathJoin(resultDir, StatFileName);
      var size := SumSizes(w, WalkPaths(walk));
      if IsFile(w, statLoc) && !q.force then (Returned((ReportStat(size, "", q.repoLoc), Some(statLoc))), w)
      else if !Admitted(size, q.sizeLimit) then
        (Returned((ReportStat(size, TooBigError(q.repoLoc, size, q.sizeLimit), q.repoLoc), None)), w)
      else match MakeDirsResult(w, resultDir)
        case Raised(e) => (Raised(e), w)
        case Returned(w1) => AnalysisResult(w1, run, q, size, statLoc)
  }

  /** The analysis proper, once the result directory exists: the primary command, then the
      `--first-parent` fallback if it fails. */
  function AnalysisResult(w: World, run: Oracle, q: Request, size: nat, statLoc: string): (Outcome<Report>, World) {
    var (w2, ok) := Execute(w, run, AnalysisCommand(q.herculesExec, q.repoLoc), statLoc);
    if ok then (Returned((ReportStat(size, "", q.repoLoc), Some(statLoc))), w2)
    else
      var (w3, ok2) := Execute(w2, run, FallbackCommand(q.herculesExec, q.repoLoc), statLoc);
      if ok2 then (Returned((ReportStat(size, "", q.repoLoc), Some(statLoc))), w3)
      else
        var status := run(FallbackCommand(q.herculesExec, q.repoLoc)).status;
        (Returned((ReportStat(size, RunError(q.repoLoc, status), q.repoLoc), None)), w3)
  }

  /** `repository_statistics`: check the paths, reuse an existing result unless forced, skip an
      oversized repository, otherwise run hercules and, if that fails, run it once more with
      `--first-parent` appended. */
  method RepositoryStatistics(m: Machine, q: Request, walk: seq<WalkStep>) returns (r: Outcome<Report>)
    modifies m
    ensures (r, m.State()) == RepoStatsResult(old(m.State()), m.run, q, walk)
  {
    ghost var w0 := m.State();
    if q.repoLoc !in m.dirs || !IsAbsolute(q.repoLoc) {
      assert RepoStatsResult(w0, m.run, q, walk) == (Raised(PathError(q.repoLoc)), w0);
      return Raised(PathError(q.repoLoc));
    }
    if !IsAbsolute(q.outputDir) {
      assert RepoStatsResult(w0, m.run, q, walk) == (Raised(PathError(q.outputDir)), w0);
      return Raised(PathError(q.outputDir));
    }
    var resultDir := PathJoinAll(q.outputDir, LastTwo(SplitOn(q.repoUrl, '/')));
    var statLoc := PathJoin(resultDir, StatFileName);
    var repoSize := DirSize(m, walk);
    assert m.State() == w0 && resultDir == ResultDir(q.outputDir, q.repoUrl);
    if statLoc in m.files && m.files[statLoc].size.Some? && !q.force {
      return Returned((ReportStat(repoSize, "", q.repoLoc), Some(statLoc)));
    }
    if repoSize > q.sizeLimit > 0 {
      return Returned((ReportStat(repoSize, TooBigError(q.repoLoc, repoSize, q.sizeLimit), q.repoLoc), None));
    }
    var err := m.MakeDirs(resultDir);
    if err.Some? {
      return Raised(err.value);
    }
    ghost var w1 := m.State();
    assert w1 == MakeDirsIn(w0, resultDir);
    assert RepoStatsResult(w0, m.run, q, walk) == AnalysisResult(w1, m.run, q, repoSize, statLoc);
    var cmd := BuildCommand(q.herculesExec, q.repoLoc);
    var ok := m.Exec(cmd, statLoc);
    ghost var w2 := m.State();
    assert (w2, ok) == Execute(w1, m.run, AnalysisCommand(q.herculesExec, q.repoLoc), statLoc);
    if !ok {
      cmd := cmd + ["--first-parent"];
      ok := m.Exec(cmd, statLoc);
      assert (m.State(), ok) == Execute(w2, m.run, FallbackCommand(q.herculesExec, q.repoLoc), statLoc);
      if !ok {
        var status := m.run(cmd).status;
        return Returned((ReportStat(repoSize, RunError(q.repoLoc, status), q.repoLoc), None));
      }
    }
    return Returned((ReportStat(repoSize, "", q.repoLoc), Some(statLoc)));
  }

  /** The primary command, assembled flag by flag as the source does. */
  method BuildCommand(herculesExec: string, repoLoc: string) returns (cmd: seq<string>)
    ensures cmd == AnalysisCommand(herculesExec, repoLoc)
  {
    cmd := [herculesExec];
    cmd := cmd + ["--pb"];
    cmd := cmd + ["--burndown", "--burndown-people"];
    cmd := cmd + ["--devs"];
    cmd := cmd + ["--couples"];
    cmd := cmd + ["--hibernation-distance=1000"];
    cmd := cmd + ["--skip-blacklist"];
    cmd := cmd + [repoLoc];
  }

  /** A repository directory that is missing or not absolute, or an output directory that is
      not absolute, raises `ValueError` before anything is measured, written or run. The only
      other exception comes from `os.makedirs`, when hercules is due but a file is in the way
      of the result directory. Whatever raises changes nothing. */
  lemma BadPathsRaise(w: World, run: Oracle, q: Request, walk: seq<WalkStep>)
    ensures RepoStatsResult(w, run, q, walk).0.Raised?
        <==> !ValidPaths(w, q) || (Due(w, q, walk) && MakeDirsRaises(w, ResultDir(q.outputDir, q.repoUrl)))
    ensures RepoStatsResult(w, run, q, walk).0.Raised? ==> RepoStatsResult(w, run, q, walk).1 == w
  {
  }

  /** A file in the way of the result directory (at `<output>/<owner>/<name>`, or at one of the
      directories on the way to it) makes `os.makedirs` raise once hercules is due; hercules
      never runs and nothing changes. */
  lemma BlockedResultDirRaises(w: World, run: Oracle, q: Request, walk: seq<WalkStep>)
    requires Due(w, q, walk) && MakeDirsRaises(w, ResultDir(q.outputDir, q.repoUrl))
    ensures RepoStatsResult(w, run, q, walk) == (Raised(MakeDirsError(w, ResultDir(q.outputDir, q.repoUrl))), w)
  {
  }

  /** An existing statistics file is reused when not forced, with no error and nothing run,
      before the size is checked: this holds for oversized repositories too. */
  lemma ExistingIsReused(w: World, run: Oracle, q: Request, walk: seq<WalkStep>)
    requires ValidPaths(w, q) && IsFile(w, StatLoc(q.outputDir, q.repoUrl)) && !q.force
    ensures RepoStatsResult(w, run, q, walk)
         == (Returned((ReportStat(SumSizes(w, WalkPaths(walk)), "", q.repoLoc), Some(StatLoc(q.outputDir, q.repoUrl)))), w)
  {
  }

  /** Otherwise a repository beyond a positive size limit is skipped: a non-empty error, no
      path, and nothing written or run. */
  lemma OversizeIsRejected(w: World, run: Oracle, q: Request, walk: seq<WalkStep>)
    requires ValidPaths(w, q) && !(IsFile(w, StatLoc(q.outputDir, q.repoUrl)) && !q.force)
    requires !Admitted(SumSizes(w, WalkPaths(walk)), q.sizeLimit)
    ensures var (r, w') := RepoStatsResult(w, run, q, walk);
      r.Returned? && r.value.0.err != "" && r.value.1 == None && w' == w
  {
  }

  /** An admitted repository gets at most two hercules runs, both writing the statistics file:
      the primary command, and the fallback with `--first-parent` appended only after the
      primary failed. A path is returned iff one of them succeeded. */
  lemma AdmittedRunsAtMostTwice(w: World, run: Oracle, q: Request, walk: seq<WalkStep>)
    requires ValidPaths(w, q) && !(IsFile(w, StatLoc(q.outputDir, q.repoUrl)) && !q.force)
    requires Admitted(SumSizes(w, WalkPaths(walk)), q.sizeLimit)
    requires !MakeDirsRaises(w, ResultDir(q.outputDir, q.repoUrl))
    ensures var (r, w') := RepoStatsResult(w, run, q, walk);
      var statLoc := StatLoc(q.outputDir, q.repoUrl);
      var primary := AnalysisCommand(q.herculesExec, q.repoLoc);
      var fallback := FallbackCommand(q.herculesExec, q.repoLoc);
      && r.Returned?
      && fallback == primary + ["--first-parent"]
      && (run(primary).status == 0 ==> w'.calls == w.calls + [Invocation(primary, Some(statLoc))])
      && (run(primary).status != 0 ==>
            w'.calls == w.calls + [Invocation(primary, Some(statLoc)), Invocation(fallback, Some(statLoc))])
      && (r.value.1 == Some(statLoc) <==> run(primary).status == 0 || run(fallback).status == 0)
      && (r.value.1 == None <==> run(primary).status != 0 && run(fallback).status != 0)
      && ResultDir(q.outputDir, q.repoUrl) in w'.dirs
  {
    var w1 := MakeDirsIn(w, ResultDir(q.outputDir, q.repoUrl));
    var size, statLoc := SumSizes(w, WalkPaths(walk)), StatLoc(q.outputDir, q.repoUrl);
    assert RepoStatsResult(w, run, q, walk) == AnalysisResult(w1, run, q, size, statLoc);
    AnalysisRuns(w1, run, q, size, statLoc);
  }

  /** The analysis step runs the primary command, and the fallback only after it failed. */
  lemma AnalysisRuns(w: World, run: Oracle, q: Request, size: nat, statLoc: string)
    ensures var (r, w') := AnalysisResult(w, run, q, size, statLoc);
      var primary := AnalysisCommand(q.herculesExec, q.repoLoc);
      var fallback := FallbackCommand(q.herculesExec, q.repoLoc);
      && r.Returned?
      && fallback == primary + ["--first-parent"]
      && (run(primary).status == 0 ==> w'.calls == w.calls + [Invocation(primary, Some(statLoc))])
      && (run(primary).status != 0 ==>
            w'.calls == w.calls + [Invocation(primary, Some(statLoc)), Invocation(fallback, Some(statLoc))])
      && (r.value.1 == Some(statLoc) <==> run(primary).status == 0 || run(fallback).status == 0)
      && (r.value.1 == None <==> run(primary).status != 0 && run(fallback).status != 0)
      && w'.dirs == w.dirs
  {
    var primary := AnalysisCommand(q.herculesExec, q.repoLoc);
    var (w2, ok) := Execute(w, run, primary, statLoc);
    if !ok {
      var fallback := FallbackCommand(q.herculesExec, q.repoLoc);
      var (w3, ok2) := Execute(w2, run, fallback, statLoc);
      assert w3.calls == w.calls + [Invocation(primary, Some(statLoc)), Invocation(fallback, Some(statLoc))];
    }
  }

  /** Every report that is returned has an empty error exactly when it carries a path, and
      that path is the statistics location. */
  lemma ErrorIffNoPath(w: World, run: Oracle, q: Request, walk: seq<WalkStep>)
    requires RepoStatsResult(w, run, q, walk).0.Returned?
    ensures var (stat, path) := RepoStatsResult(w, run, q, walk).0.value;
      && (stat.err == "" <==> path.Some?)
      && (path.Some? ==> path.value == StatLoc(q.outputDir, q.repoUrl))
      && stat.repository == q.repoLoc
      && stat.repoSize == SumSizes(w, WalkPaths(walk))
  {
    if ValidPaths(w, q) && !(IsFile(w, StatLoc(q.outputDir, q.repoUrl)) && !q.force) {
      var size := SumSizes(w, WalkPaths(walk));
      if !Admitted(size, q.sizeLimit) {
        assert TooBigError(q.repoLoc, size, q.sizeLimit) != "";
      }
    }
  }

  /** Running again without `force` after a call that returned a path reuses that path: no
      error, nothing run, nothing changed. */
  lemma RerunReuses(w: World, run: Oracle, q: Request, walk: seq<WalkStep>, walk2: seq<WalkStep>)
    requires RepoStatsResult(w, run, q, walk).0.Returned?
    requires RepoStatsResult(w, run, q, walk).0.value.1.Some?
    ensures var (r, w') := RepoStatsResult(w, run, q, walk);
      var (r2, w'') := RepoStatsResult(w', run, q.(force := false), walk2);
      && r2.Returned? && r2.value.0.err == "" && r2.value.1 == r.value.1 && w'' == w'
  {
    var (r, w') := RepoStatsResult(w, run, q, walk);
    ErrorIffNoPath(w, run, q, walk);
    assert ValidPaths(w, q);
    assert w.dirs <= w'.dirs;
    assert IsFile(w', StatLoc(q.outputDir, q.repoUrl));
  }

  /** The statistics file is opened for writing before hercules runs, so a repository whose
      two runs both failed leaves that file behind; a later call without `force` then takes
      it for an earlier result and reports success. */
  lemma RerunAfterFailureReusesLeftover(w: World, run: Oracle, q: Request, walk: seq<WalkStep>, walk2: seq<WalkStep>)
    requires ValidPaths(w, q) && !IsFile(w, StatLoc(q.outputDir, q.repoUrl))
    requires Admitted(SumSizes(w, WalkPaths(walk)), q.sizeLimit)
    requires !MakeDirsRaises(w, ResultDir(q.outputDir, q.repoUrl))
    requires run(AnalysisCommand(q.herculesExec, q.repoLoc)).status != 0
    requires run(FallbackCommand(q.herculesExec, q.repoLoc)).status != 0
    ensures var (r, w') := RepoStatsResult(w, run, q, walk);
      var (r2, w'') := RepoStatsResult(w', run, q.(force := false), walk2);
      && r.Returned? && r.value.0.err != "" && r.value.1 == None
      && r2 == Returned((ReportStat(SumSizes(w', WalkPaths(walk2)), "", q.repoLoc), Some(StatLoc(q.outputDir, q.repoUrl))))
      && w'' == w'
  {
    var (r, w') := RepoStatsResult(w, run, q, walk);
    ErrorIffNoPath(w, run, q, walk);
    assert w.dirs <= w'.dirs;
  }
}
