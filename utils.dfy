/** `org_analysis/utils.py`: keyword-argument filtering and cloning a repository. */
module Utils {
  import opened Wrappers
  import opened Text
  import opened Host

  /** `filter_kwargs(kwargs, func)`: the entries of `kwargs` whose key names a parameter of
      `func`. A dict is an association list in insertion order; `params` is the parameter
      names that `inspect.signature(func)` reports. */
  function FilterKwargs<V(!new)>(kwargs: seq<(string, V)>, params: set<string>): (r: seq<(string, V)>)
    ensures forall e :: e in r <==> e in kwargs && e.0 in params
    ensures |r| <= |kwargs|
  {
    if kwargs == [] then []
    else (if kwargs[0].0 in params then [kwargs[0]] else []) + FilterKwargs(kwargs[1..], params)
  }

  /** Filtering works entry by entry, so the kept entries stay in their original order. */
  lemma {:induction false} FilterKwargsConcat<V(!new)>(a: seq<(string, V)>, b: seq<(string, V)>, params: set<string>)
    ensures FilterKwargs(a + b, params) == FilterKwargs(a, params) + FilterKwargs(b, params)
    decreases |a|
  {
    if a == [] {
      assert a + b == b;
    } else {
      assert (a + b)[0] == a[0];
      assert (a + b)[1..] == a[1..] + b;
      FilterKwargsConcat(a[1..], b, params);
    }
  }

  /** Filtering twice is filtering once. */
  lemma {:induction false} FilterKwargsIdempotent<V(!new)>(kwargs: seq<(string, V)>, params: set<string>)
    ensures FilterKwargs(FilterKwargs(kwargs, params), params) == FilterKwargs(kwargs, params)
    decreases |kwargs|
  {
    if kwargs != [] {
      var head := if kwargs[0].0 in params then [kwargs[0]] else [];
      FilterKwargsConcat(head, FilterKwargs(kwargs[1..], params), params);
      FilterKwargsIdempotent(kwargs[1..], params);
      if head != [] {
        assert FilterKwargs(head, params) == head by {
          assert head[1..] == [];
        }
      }
    }
  }

  /** When every key is a parameter, nothing is dropped. */
  lemma {:induction false} FilterKwargsKeepsAll<V(!new)>(kwargs: seq<(string, V)>, params: set<string>)
    requires forall i :: 0 <= i < |kwargs| ==> kwargs[i].0 in params
    ensures FilterKwargs(kwargs, params) == kwargs
    decreases |kwargs|
  {
    if kwargs != [] {
      FilterKwargsKeepsAll(kwargs[1..], params);
    }
  }

  /** The keys of a dict are distinct, and stay so after filtering. */
  predicate DistinctKeys<V(!new)>(kwargs: seq<(string, V)>) {
    forall i, j :: 0 <= i < j < |kwargs| ==> kwargs[i].0 != kwargs[j].0
  }

  lemma {:induction false} FilterKwargsDistinct<V(!new)>(kwargs: seq<(string, V)>, params: set<string>)
    requires DistinctKeys(kwargs)
    ensures DistinctKeys(FilterKwargs(kwargs, params))
    decreases |kwargs|
  {
    if kwargs != [] {
      FilterKwargsDistinct(kwargs[1..], params);
      var rest := FilterKwargs(kwargs[1..], params);
      forall e | e in rest ensures e.0 != kwargs[0].0 {
        var j :| 0 <= j < |kwargs[1..]| && kwargs[1..][j] == e;
        assert kwargs[j + 1] == e;
      }
    }
  }

  /** `f"git clone --bare {repo_url} {dest}".split()`. */
  function CloneCommand(repoUrl: string, dest: string): seq<string> {
    Words("git clone --bare " + repoUrl + " " + dest)
  }

  /** The command line, cut at its three separating spaces. */
  lemma CloneLineParts(repoUrl: string, dest: string)
    ensures "git clone --bare " + repoUrl + " " + dest
         == "git" + [' '] + ("clone" + [' '] + ("--bare" + [' '] + (repoUrl + [' '] + dest)))
  {
    var lit := "git clone --bare ";
    assert lit == "git" + [' '] + "clone" + [' '] + "--bare" + [' '];
  }

  /** Three leading words followed by a space-separated tail. */
  lemma {:induction false} LeadingWords(w1: string, w2: string, w3: string, tail: string)
    requires w1 != [] && NoSpace(w1) && w2 != [] && NoSpace(w2) && w3 != [] && NoSpace(w3)
    ensures Words(w1 + [' '] + (w2 + [' '] + (w3 + [' '] + tail))) == [w1, w2, w3] + Words(tail)
  {
    var t2 := w3 + [' '] + tail;
    var t3 := w2 + [' '] + t2;
    WordsAroundSpace(w3, ' ', tail);
    WordsAroundSpace(w2, ' ', t2);
    WordsAroundSpace(w1, ' ', t3);
    WordsOfWord(w1);
    WordsOfWord(w2);
    WordsOfWord(w3);
  }

  /** The clone command is `git clone --bare` followed by the words of the URL and of the
      destination. */
  lemma CloneCommandWords(repoUrl: string, dest: string)
    ensures CloneCommand(repoUrl, dest) == ["git", "clone", "--bare"] + Words(repoUrl) + Words(dest)
  {
    CloneLineParts(repoUrl, dest);
    var g, c, b := "git", "clone", "--bare";
    assert NoSpace(g) && NoSpace(c) && NoSpace(b);
    LeadingWords(g, c, b, repoUrl + [' '] + dest);
    WordsAroundSpace(repoUrl, ' ', dest);
  }

  /** So a URL and a destination without whitespace give five arguments, and the default
      empty destination gives four. */
  lemma CloneCommandPlain(repoUrl: string, dest: string)
    requires repoUrl != [] && NoSpace(repoUrl)
    ensures dest != [] && NoSpace(dest) ==> CloneCommand(repoUrl, dest) == ["git", "clone", "--bare", repoUrl, dest]
    ensures dest == [] ==> CloneCommand(repoUrl, dest) == ["git", "clone", "--bare", repoUrl]
  {
    CloneCommandWords(repoUrl, dest);
    WordsOfWord(repoUrl);
    if dest != [] && NoSpace(dest) {
      WordsOfWord(dest);
    }
  }

  /** The directory a successful `git clone --bare` creates: `dest` when one is given. */
  function CloneTarget(dest: string): Option<string> {
    if dest != "" then Some(dest) else None
  }

  /** What `clone_repo(repo_url, dest, force)` does to the environment and returns. */
  function CloneResult(w: World, run: Oracle, repoUrl: string, dest: string, force: bool): (Option<string>, World) {
    var cmd := CloneCommand(repoUrl, dest);
    if IsDir(w, dest) && !force then (Some(dest), w)
    else
      var w1 := if IsDir(w, dest) then RemoveTreeIn(w, dest) else w;
      var (w2, ok) := ExecuteQuiet(w1, run, cmd, CloneTarget(dest));
      (if ok then Some(dest) else None, w2)
  }

  /** `clone_repo`: reuse an existing directory unless forced; when forced, delete it first;
      then run `git clone` and report the destination, or `None` if git failed. */
  method CloneRepo(m: Machine, repoUrl: string, dest: string, force: bool) returns (r: Option<string>)
    modifies m
    ensures (r, m.State()) == CloneResult(old(m.State()), m.run, repoUrl, dest, force)
  {
    var cmd := CloneCommand(repoUrl, dest);
    if dest in m.dirs {
      if force {
        m.RemoveTree(dest);
      } else {
        return Some(dest);
      }
    }
    var ok := m.ExecQuiet(cmd, CloneTarget(dest));
    if ok {
      return Some(dest);
    }
    return None;
  }

  /** An existing clone is returned as it is when not forced: nothing is deleted or run. */
  lemma CloneKeepsExisting(w: World, run: Oracle, repoUrl: string, dest: string)
    requires IsDir(w, dest)
    ensures CloneResult(w, run, repoUrl, dest, false) == (Some(dest), w)
  {
  }

  /** Otherwise exactly one git command runs and the destination is reported iff it succeeded.
      A successful clone leaves `dest` as a directory. When forced over an existing directory,
      what was below it is gone first, and after a failed clone `dest` itself is gone too. No
      file outside `dest` changes. */
  lemma CloneRunsOnce(w: World, run: Oracle, repoUrl: string, dest: string, force: bool)
    requires !IsDir(w, dest) || force
    ensures var (r, w') := CloneResult(w, run, repoUrl, dest, force);
      && w'.calls == w.calls + [Invocation(CloneCommand(repoUrl, dest), None)]
      && (r == Some(dest) <==> run(CloneCommand(repoUrl, dest)).status == 0)
      && (r == None <==> run(CloneCommand(repoUrl, dest)).status != 0)
      && (r == Some(dest) && dest != "" ==> IsDir(w', dest))
      && (IsDir(w, dest) ==> forall x :: Under(x, dest) && x != dest ==> x !in w'.dirs && x !in w'.files)
      && (IsDir(w, dest) && r == None ==> !IsDir(w', dest))
      && (!IsDir(w, dest) && r == None ==> w'.dirs == w.dirs && w'.files == w.files)
      && (forall x :: !Under(x, dest) ==> (x in w'.files <==> x in w.files))
  {
  }

  /** Cloning is idempotent without `force`: once a clone into `dest` has succeeded, cloning
      again returns `dest` and runs nothing. */
  lemma RecloneReuses(w: World, run: Oracle, repoUrl: string, dest: string, force: bool)
    requires dest != "" && CloneResult(w, run, repoUrl, dest, force).0 == Some(dest)
    ensures var w' := CloneResult(w, run, repoUrl, dest, force).1;
      CloneResult(w', run, repoUrl, dest, false) == (Some(dest), w')
  {
  }
}
