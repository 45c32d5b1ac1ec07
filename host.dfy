/** The environment the scripts act on: a filesystem of directories and files, and external
    programs (hercules, git) seen as an oracle from an argument list to an outcome. Every
    invocation is logged so that properties can speak about which commands ran, in what order. */
module Host {
  import opened Wrappers

  /** A file: its size when `os.path.getsize` can read it (`None`: the lookup raises, as for a
      dangling link), and the start time in its statistics header when the protobuf reader can
      parse one (`None`: reading the header raises). */
  datatype Artifact = Artifact(size: Option<nat>, start: Option<int>)

  /** One run of an external program: its exit status, the number of bytes it wrote to
      standard output, and the header start time a reader finds in those bytes. */
  datatype Run = Run(status: int, size: nat, start: Option<int>)

  /** An invocation: the argument list and the file its standard output went to, if any. */
  datatype Invocation = Invocation(argv: seq<string>, stdout: Option<string>)

  datatype World = World(dirs: set<string>, files: map<string, Artifact>, calls: seq<Invocation>)

  type Oracle = seq<string> -> Run

  /** `os.path.isdir`. */
  predicate IsDir(w: World, p: string) {
    p in w.dirs
  }

  /** `os.path.isfile`: false for an entry whose size cannot be read. */
  predicate IsFile(w: World, p: string) {
    p in w.files && w.files[p].size.Some?
  }

  /** `subprocess.run(argv, check=True, stdout=f)` with `f = open(dest, "wb")`: the file is
      truncated and receives the program's output whether or not the program succeeds; the
      call succeeds iff the exit status is 0 (otherwise `CalledProcessError` is raised). */
  function Execute(w: World, run: Oracle, argv: seq<string>, dest: string): (r: (World, bool))
    ensures r.1 <==> run(argv).status == 0
    ensures r.0.calls == w.calls + [Invocation(argv, Some(dest))] && r.0.dirs == w.dirs
    ensures IsFile(r.0, dest) && r.0.files[dest].size == Some(run(argv).size)
    ensures forall p :: p != dest ==> (p in r.0.files <==> p in w.files)
    ensures forall p :: p != dest && p in w.files ==> r.0.files[p] == w.files[p]
  {
    var o := run(argv);
    (World(w.dirs, w.files[dest := Artifact(Some(o.size), o.start)], w.calls + [Invocation(argv, Some(dest))]),
     o.status == 0)
  }

  /** `subprocess.check_call(argv, stdout=PIPE, stderr=PIPE)`: no output goes to a file. A
      program that creates a directory (`git clone` does) is given it as `creates`: on success
      that directory and its parents exist afterwards. */
  function ExecuteQuiet(w: World, run: Oracle, argv: seq<string>, creates: Option<string>): (r: (World, bool))
    ensures r.1 <==> run(argv).status == 0
    ensures r.0.files == w.files && r.0.calls == w.calls + [Invocation(argv, None)]
    ensures r.1 && creates.Some? ==> r.0.dirs == w.dirs + Ancestors(creates.value) + {creates.value}
    ensures !(r.1 && creates.Some?) ==> r.0.dirs == w.dirs
  {
    var ok := run(argv).status == 0;
    var dirs := if ok && creates.Some? then w.dirs + Ancestors(creates.value) + {creates.value} else w.dirs;
    (World(dirs, w.files, w.calls + [Invocation(argv, None)]), ok)
  }

  /** The proper prefixes of `p` that end just before a `/`. */
  function Ancestors(p: string): set<string> {
    set i | 0 < i < |p| && p[i] == '/' :: p[..i]
  }

  /** Creating the directory `p`: `p` and the directories on the way to it exist afterwards. */
  function MakeDirsIn(w: World, p: string): (r: World)
    ensures r.dirs == w.dirs + Ancestors(p) + {p}
    ensures r.files == w.files && r.calls == w.calls
  {
    World(w.dirs + Ancestors(p) + {p}, w.files, w.calls)
  }

  /** `os.makedirs(p, exist_ok=True)` raises when `p` is empty (`FileNotFoundError`), when a
      file sits at `p` (`FileExistsError`) or when a file sits on the way to it
      (`NotADirectoryError`). An existing directory at `p` is accepted. */
  predicate MakeDirsRaises(w: World, p: string) {
    p == "" || p in w.files || exists a :: a in Ancestors(p) && a in w.files
  }

  function MakeDirsError(w: World, p: string): string {
    if p == "" then "[Errno 2] No such file or directory: ''"
    else if p in w.files then "[Errno 17] File exists: '" + p + "'"
    else "[Errno 20] Not a directory: '" + p + "'"
  }

  /** `os.makedirs(p, exist_ok=True)`: raises, changing nothing, when `MakeDirsRaises`;
      otherwise `p` and every directory on the way to it exist afterwards, and no file and no
      other directory is touched. */
  function MakeDirsResult(w: World, p: string): (r: Outcome<World>)
    ensures r.Raised? <==> MakeDirsRaises(w, p)
    ensures r.Returned? ==> IsDir(r.value, p) && (forall a :: a in Ancestors(p) ==> IsDir(r.value, a))
    ensures r.Returned? ==> r.value.files == w.files && r.value.calls == w.calls
    ensures r.Returned? ==> forall d :: d in r.value.dirs <==> d in w.dirs || d == p || d in Ancestors(p)
  {
    if MakeDirsRaises(w, p) then Raised(MakeDirsError(w, p)) else Returned(MakeDirsIn(w, p))
  }

  /** `x` is `p` or lies below it. */
  predicate Under(x: string, p: string) {
    x == p || (|x| > |p| && x[..|p|] == p && x[|p|] == '/')
  }

  /** `shutil.rmtree(p)`: `p` and everything below it are gone; nothing else changes. */
  function RemoveTreeIn(w: World, p: string): (r: World)
    ensures forall x :: x in r.dirs <==> x in w.dirs && !Under(x, p)
    ensures forall x :: x in r.files <==> x in w.files && !Under(x, p)
    ensures forall x :: x in r.files ==> r.files[x] == w.files[x]
    ensures r.calls == w.calls
  {
    World(set d | d in w.dirs && !Under(d, p), map f | f in w.files && !Under(f, p) :: w.files[f], w.calls)
  }

  /** What a real file system guarantees: no path is both a directory and a file, and the empty
      path is neither (`os.path.isdir("")` is false). */
  predicate WellFormed(w: World) {
    "" !in w.dirs && "" !in w.files && forall p :: p in w.dirs ==> p !in w.files
  }

  /** Writing a file keeps the file system well formed, unless the target is a directory or
      empty, where `open(dest, "wb")` raises in the source. */
  lemma ExecuteKeepsWellFormed(w: World, run: Oracle, argv: seq<string>, dest: string)
    requires WellFormed(w) && dest != "" && dest !in w.dirs
    ensures WellFormed(Execute(w, run, argv, dest).0)
  {
  }

  /** A quiet run keeps the file system well formed when the directory it creates could be
      made by `makedirs`. */
  lemma ExecuteQuietKeepsWellFormed(w: World, run: Oracle, argv: seq<string>, creates: Option<string>)
    requires WellFormed(w) && (creates.Some? ==> !MakeDirsRaises(w, creates.value))
    ensures WellFormed(ExecuteQuiet(w, run, argv, creates).0)
  {
    if creates.Some? {
      AncestorsNotEmpty(creates.value);
    }
  }

  /** A `makedirs` that returns keeps the file system well formed. */
  lemma MakeDirsKeepsWellFormed(w: World, p: string)
    requires WellFormed(w) && MakeDirsResult(w, p).Returned?
    ensures WellFormed(MakeDirsResult(w, p).value)
  {
    AncestorsNotEmpty(p);
  }

  lemma AncestorsNotEmpty(p: string)
    ensures "" !in Ancestors(p)
  {
  }

  /** `rmtree` keeps the file system well formed. */
  lemma RemoveTreeKeepsWellFormed(w: World, p: string)
    requires WellFormed(w)
    ensures WellFormed(RemoveTreeIn(w, p))
  {
  }

  /** The live environment. Each method changes it exactly as the value-level function
      of the same operation says. */
  class Machine {
    var dirs: set<string>
    var files: map<string, Artifact>
    var calls: seq<Invocation>
    const run: Oracle

    function State(): World
      reads this
    {
      World(dirs, files, calls)
    }

    constructor (w: World, run: Oracle)
      ensures State() == w && this.run == run
    {
      dirs, files, calls := w.dirs, w.files, w.calls;
      this.run := run;
    }

    method Exec(argv: seq<string>, dest: string) returns (ok: bool)
      modifies this
      ensures (State(), ok) == Execute(old(State()), run, argv, dest)
    {
      var o := run(argv);
      files := files[dest := Artifact(Some(o.size), o.start)];
      calls := calls + [Invocation(argv, Some(dest))];
      ok := o.status == 0;
    }

    method ExecQuiet(argv: seq<string>, creates: Option<string>) returns (ok: bool)
      modifies this
      ensures (State(), ok) == ExecuteQuiet(old(State()), run, argv, creates)
    {
      calls := calls + [Invocation(argv, None)];
      ok := run(argv).status == 0;
      if ok && creates.Some? {
        dirs := dirs + Ancestors(creates.value) + {creates.value};
      }
    }

    /** `os.makedirs(p, exist_ok=True)`: the error it raises, if any. */
    method MakeDirs(p: string) returns (err: Option<string>)
      modifies this
      ensures MakeDirsResult(old(State()), p).Raised? ==>
                err == Some(MakeDirsResult(old(State()), p).error) && State() == old(State())
      ensures MakeDirsResult(old(State()), p).Returned? ==> err == None && State() == MakeDirsResult(old(State()), p).value
    {
      if p == "" || p in files || exists a | a in Ancestors(p) :: a in files {
        return Some(MakeDirsError(State(), p));
      }
      dirs := dirs + Ancestors(p) + {p};
      return None;
    }

    /** `tempfile.TemporaryDirectory()`: a directory the program picks, created afresh. */
    method MakeTempDir(p: string)
      modifies this
      ensures State() == MakeDirsIn(old(State()), p)
    {
      dirs := dirs + Ancestors(p) + {p};
    }

    method RemoveTree(p: string)
      modifies this
      ensures State() == RemoveTreeIn(old(State()), p)
    {
      dirs := set d | d in dirs && !Under(d, p);
      files := map f | f in files && !Under(f, p) :: files[f];
    }
  }
}
