/** Aggregation of `org_analysis/hercules_statistics.py`: batching (`slice_max_n`), the
    zero-timestamp filter, one `hercules combine` run (`merge_statistics_`) and the
    hierarchical merge (`merge_statistics`). */
module HerculesMerge {
  import opened Wrappers
  import opened Text
  import opened Paths
  import opened Host
  import opened Arith
  import HS = HerculesStatistics

  /** `range(start, stop, step)` for a positive step. */
  function Range(start: nat, stop: nat, step: nat): seq<nat>
    requires step > 0
    decreases stop - start
  {
    if start >= stop then [] else [start] + Range(start + step, stop, step)
  }

  /** `zip(a, b)`: pairs up to the shorter of the two. */
  function Zip<A, B>(a: seq<A>, b: seq<B>): (r: seq<(A, B)>)
    ensures |r| == if |a| <= |b| then |a| else |b|
    ensures forall k :: 0 <= k < |r| ==> r[k] == (a[k], b[k])
  {
    if a == [] || b == [] then [] else [(a[0], b[0])] + Zip(a[1..], b[1..])
  }

  /** `slice_max_n(size, n_elem)`. */
  function SliceMaxN(size: nat, n: nat): seq<(nat, nat)>
    requires n > 0
  {
    Zip(Range(0, size, n), Range(n, size + n, n))
  }

  /** `range` counts up from its start in steps, and stops before `stop`. */
  lemma {:induction false} RangeShape(start: nat, stop: nat, step: nat)
    requires step > 0
    ensures |Range(start, stop, step)| == if start >= stop then 0 else (stop - start + step - 1) / step
    ensures forall k :: 0 <= k < |Range(start, stop, step)| ==> Range(start, stop, step)[k] == start + step * k
    decreases stop - start
  {
    if start < stop {
      RangeShape(start + step, stop, step);
      var rest := Range(start + step, stop, step);
      var x := stop - start + step - 1;
      if start + step >= stop {
        DivUnique(x, step, 1, x - step);
      } else {
        DivStep(stop - (start + step) + step - 1, step);
      }
      forall k | 0 < k < |Range(start, stop, step)|
        ensures Range(start, stop, step)[k] == start + step * k
      {
        assert Range(start, stop, step)[k] == rest[k - 1];
        assert step * (k - 1) + step == step * k;
      }
    }
  }

  /** `slice_max_n(size, n)` yields exactly ceil(size / n) pairs, the `k`-th being `(k*n, (k+1)*n)`. */
  lemma SliceMaxNShape(size: nat, n: nat)
    requires n > 0
    ensures |SliceMaxN(size, n)| == CeilDiv(size, n)
    ensures forall k :: 0 <= k < |SliceMaxN(size, n)| ==> SliceMaxN(size, n)[k] == (n * k, n * (k + 1))
  {
    RangeShape(0, size, n);
    RangeShape(n, size + n, n);
    CeilDivBounds(size, n);
    forall k | 0 <= k < |SliceMaxN(size, n)| ensures SliceMaxN(size, n)[k] == (n * k, n * (k + 1)) {
      assert n + n * k == n * (k + 1);
    }
  }

  /** Consecutive pairs abut: each one ends where the next one starts. */
  lemma SliceMaxNAbut(size: nat, n: nat)
    requires n > 0
    ensures forall k :: 0 <= k < |SliceMaxN(size, n)| - 1 ==> SliceMaxN(size, n)[k].1 == SliceMaxN(size, n)[k + 1].0
  {
    SliceMaxNShape(size, n);
  }

  /** Every pair starts inside `[0, size)` and the last one reaches `size`. */
  lemma SliceMaxNBounds(size: nat, n: nat)
    requires n > 0
    ensures forall k :: 0 <= k < |SliceMaxN(size, n)| ==> SliceMaxN(size, n)[k].0 < size
    ensures size > 0 ==> SliceMaxN(size, n)[|SliceMaxN(size, n)| - 1].1 >= size
  {
    SliceMaxNShape(size, n);
    CeilDivBounds(size, n);
    var c := CeilDiv(size, n);
    forall k | 0 <= k < c ensures n * k < size {
      MulMonotone(n, k, c - 1);
    }
  }

  /** Every index in `[0, size)` lies in exactly one pair, the one numbered `i / n`. */
  lemma SliceMaxNCover(size: nat, n: nat, i: nat)
    requires n > 0 && i < size
    ensures i / n < |SliceMaxN(size, n)|
    ensures forall k :: 0 <= k < |SliceMaxN(size, n)| ==>
              (SliceMaxN(size, n)[k].0 <= i < SliceMaxN(size, n)[k].1 <==> k == i / n)
  {
    SliceMaxNShape(size, n);
    GroupBelowCeil(size, n, i);
    forall k | 0 <= k < |SliceMaxN(size, n)|
      ensures SliceMaxN(size, n)[k].0 <= i < SliceMaxN(size, n)[k].1 <==> k == i / n
    {
      GroupOf(i, n, k);
      assert n * (k + 1) == n * k + n;
    }
  }

  /** `s[a:b]` for non-negative bounds: both are clamped to the length. */
  function PySlice<T>(s: seq<T>, a: nat, b: nat): seq<T> {
    var lo := if a <= |s| then a else |s|;
    var hi := if b <= |s| then b else |s|;
    if lo <= hi then s[lo..hi] else []
  }

  /** The batches one level of the merge combines: the slices `slice_max_n` marks out. */
  function Batches(stack: seq<string>, n: nat): seq<seq<string>>
    requires n > 0
  {
    var pairs := SliceMaxN(|stack|, n);
    seq(|pairs|, k requires 0 <= k < |pairs| => PySlice(stack, pairs[k].0, pairs[k].1))
  }

  function Flatten<T>(parts: seq<seq<T>>): seq<T> {
    if parts == [] then [] else Flatten(parts[..|parts| - 1]) + parts[|parts| - 1]
  }

  /** The `k`-th batch as a plain slice of the stack. */
  lemma BatchAt(stack: seq<string>, n: nat, k: nat)
    requires n > 0 && k < |Batches(stack, n)|
    ensures n * k < |stack|
    ensures Batches(stack, n)[k] == stack[n * k .. if n * k + n <= |stack| then n * k + n else |stack|]
    ensures 1 <= |Batches(stack, n)[k]| <= n
  {
    SliceMaxNShape(|stack|, n);
    SliceMaxNBounds(|stack|, n);
    var pairs := SliceMaxN(|stack|, n);
    assert pairs[k] == (n * k, n * (k + 1));
    assert n * (k + 1) == n * k + n;
  }

  /** The batches of a level cut the stack into consecutive runs of 1 to `n` files, in order:
      every file lands in exactly one batch. */
  lemma BatchesPartition(stack: seq<string>, n: nat)
    requires n > 0
    ensures |Batches(stack, n)| == CeilDiv(|stack|, n)
    ensures Flatten(Batches(stack, n)) == stack
    ensures forall k :: 0 <= k < |Batches(stack, n)| ==> 1 <= |Batches(stack, n)[k]| <= n
  {
    var bs := Batches(stack, n);
    SliceMaxNShape(|stack|, n);
    CeilDivBounds(|stack|, n);
    forall k | 0 <= k < |bs|
      ensures 1 <= |bs[k]| <= n
      ensures n * k < |stack| && bs[k] == stack[n * k .. if n * k + n <= |stack| then n * k + n else |stack|]
    {
      BatchAt(stack, n, k);
    }
    FlattenPrefix(stack, bs, n, |bs|);
    assert bs[..|bs|] == bs;
  }

  lemma FlattenStep<T>(parts: seq<seq<T>>, j: nat)
    requires 0 < j <= |parts|
    ensures Flatten(parts[..j]) == Flatten(parts[..j - 1]) + parts[j - 1]
  {
    assert parts[..j][..j - 1] == parts[..j - 1];
  }

  lemma SliceConcat<T>(s: seq<T>, a: nat, b: nat)
    requires a <= b <= |s|
    ensures s[..a] + s[a..b] == s[..b]
  {
  }

  /** Consecutive runs of `n` elements cut from `s` (the last one possibly shorter) concatenate
      back to a prefix of `s`: the first `j` runs give the first `min(n * j, |s|)` elements. */
  lemma {:induction false} FlattenPrefix<T>(s: seq<T>, bs: seq<seq<T>>, n: nat, j: nat)
    requires n > 0 && j <= |bs|
    requires forall k :: 0 <= k < |bs| ==>
      n * k < |s| && bs[k] == s[n * k .. if n * k + n <= |s| then n * k + n else |s|]
    ensures Flatten(bs[..j]) == s[..if n * j <= |s| then n * j else |s|]
  {
    if j > 0 {
      FlattenPrefix(s, bs, n, j - 1);
      var a := n * (j - 1);
      assert n * j == a + n by { assert n * (j - 1) + n == n * ((j - 1) + 1); }
      var b := if a + n <= |s| then a + n else |s|;
      assert a < |s| && bs[j - 1] == s[a..b];
      assert Flatten(bs[..j - 1]) == s[..a];
      FlattenStep(bs, j);
      SliceConcat(s, a, b);
    } else {
      assert bs[..0] == [];
    }
  }

  /** With at least two files per batch, a level over more than `n` files leaves fewer batches
      than files, so the hierarchy gets shorter at every level. */
  lemma LevelShrinks(size: nat, n: nat)
    requires n >= 2 && size > n
    ensures CeilDiv(size, n) < size
  {
    CeilDivBounds(size, n);
    var c := CeilDiv(size, n);
    if c >= size {
      MulMonotone(n, size - 1, c - 1);
      MulMonotone(size - 1, 2, n);
      assert false;
    }
  }

  /** Seconds in a UTC day: `utcfromtimestamp(t)` falls on day `t / SecondsPerDay` counted from
      1970-01-01, with division rounding down as Python's does for a positive divisor. */
  const SecondsPerDay := 86400

  /** The range `datetime` can represent, 0001-01-01T00:00:00 to 9999-12-31T23:59:59 UTC;
      `utcfromtimestamp` raises outside it. */
  const MinTimestamp := -62135596800
  const MaxTimestamp := 253402300799

  const RangeError := "year is out of range"

  function HeaderError(p: string): string {
    "cannot read the statistics header of " + p
  }

  function UtcDay(t: int): int {
    t / SecondsPerDay
  }

  /** Day 0 (1970-01-01) holds exactly the first `SecondsPerDay` seconds from the epoch. */
  lemma EpochDay(t: int)
    ensures UtcDay(t) == 0 <==> 0 <= t < SecondsPerDay
  {
    if 0 <= t < SecondsPerDay {
      DivUnique(t, SecondsPerDay, 0, t);
    }
    if UtcDay(t) == 0 {
      assert t == SecondsPerDay * 0 + t % SecondsPerDay;
    }
  }

  /** `starts_with_zero_timestamp(loc)`: read the header of the statistics file and test whether
      its start time falls on 1970-01-01. Reading a missing or unparsable file, or a start time
      outside what `datetime` represents, raises. */
  function StartsWithZeroTimestamp(w: World, p: string): (r: Outcome<bool>)
    ensures r.Raised? <==> !(IsFile(w, p) && w.files[p].start.Some?
                              && MinTimestamp <= w.files[p].start.value <= MaxTimestamp)
    ensures r.Returned? ==> (r.value <==> 0 <= w.files[p].start.value < SecondsPerDay)
  {
    if !IsFile(w, p) || w.files[p].start.None? then Raised(HeaderError(p))
    else
      var t := w.files[p].start.value;
      if t < MinTimestamp || t > MaxTimestamp then Raised(RangeError)
      else EpochDay(t); Returned(UtcDay(t) == 0)
  }

  /** `[loc for _, loc in filenames if loc]`: the statistics paths of the repositories that
      produced one, in order. */
  function Locations(outcomes: seq<HS.Report>): (r: seq<string>)
    ensures |r| <= |outcomes|
    ensures forall p :: p in r <==> p != "" && exists k :: 0 <= k < |outcomes| && outcomes[k].1 == Some(p)
  {
    if outcomes == [] then []
    else
      var rest := Locations(outcomes[..|outcomes| - 1]);
      var loc := outcomes[|outcomes| - 1].1;
      assert forall k :: 0 <= k < |outcomes| - 1 ==> outcomes[..|outcomes| - 1][k] == outcomes[k];
      if loc.Some? && loc.value != "" then rest + [loc.value] else rest
  }

  /** The loop of `merge_statistics` that drops statistics starting on 1970-01-01: the kept
      paths in order, or the exception the first unreadable header raises. */
  function FilterDated(w: World, locs: seq<string>): (r: Outcome<seq<string>>)
    ensures r.Raised? <==> exists p :: p in locs && StartsWithZeroTimestamp(w, p).Raised?
    ensures r.Returned? ==> |r.value| <= |locs|
    ensures r.Returned? ==> forall p :: p in r.value <==> p in locs && StartsWithZeroTimestamp(w, p) == Returned(false)
  {
    if locs == [] then Returned([])
    else
      var last := locs[|locs| - 1];
      assert forall p :: p in locs <==> p in locs[..|locs| - 1] || p == last;
      match FilterDated(w, locs[..|locs| - 1])
      case Raised(e) => Raised(e)
      case Returned(kept) =>
        match StartsWithZeroTimestamp(w, last)
        case Raised(e) => Raised(e)
        case Returned(zero) => Returned(if zero then kept else kept + [last])
  }

  /** Where `merge_statistics_` writes: `output_filename` joined onto `output_dir` when a
      non-empty directory is given, `output_filename` itself otherwise. */
  function CombinePath(outputFilename: string, outputDir: Option<string>): string {
    if outputDir.Some? && outputDir.value != "" then PathJoin(outputDir.value, outputFilename) else outputFilename
  }

  function CombineCommand(herculesExec: string, files: seq<string>): seq<string> {
    [herculesExec, "combine"] + files
  }

  /** `merge_statistics_`: one `hercules combine` run whose standard output goes to the target;
      the target path on success, `None` when the run fails. */
  function CombineResult(w: World, run: Oracle, files: seq<string>, outputFilename: string, herculesExec: string,
                         outputDir: Option<string>): (r: (Option<string>, World))
    ensures r.0.Some? <==> run(CombineCommand(herculesExec, files)).status == 0
    ensures r.0.Some? ==> r.0.value == CombinePath(outputFilename, outputDir)
    ensures r.1.calls == w.calls + [Invocation(CombineCommand(herculesExec, files), Some(CombinePath(outputFilename, outputDir)))]
    ensures IsFile(r.1, CombinePath(outputFilename, outputDir))
    ensures forall p :: IsFile(w, p) ==> IsFile(r.1, p)
  {
    var dest := CombinePath(outputFilename, outputDir);
    var (w1, ok) := Execute(w, run, CombineCommand(herculesExec, files), dest);
    (if ok then Some(dest) else None, w1)
  }

  method Combine(m: Machine, files: seq<string>, outputFilename: string, herculesExec: string, outputDir: Option<string>)
    returns (r: Option<string>)
    modifies m
    ensures (r, m.State()) == CombineResult(old(m.State()), m.run, files, outputFilename, herculesExec, outputDir)
  {
    var statLoc := outputFilename;
    if outputDir.Some? && outputDir.value != "" {
      statLoc := PathJoin(outputDir.value, outputFilename);
    }
    var cmd := [herculesExec, "combine"];
    cmd := cmd + files;
    var ok := m.Exec(cmd, statLoc);
    if !ok {
      return None;
    }
    return Some(statLoc);
  }

  /** The name of the `k`-th intermediate file: `os.path.join(tmp_dir, f"{k}.pb")`. */
  function TempName(tmpDir: string, k: nat): string {
    PathJoin(tmpDir, NatToString(k) + ".pb")
  }

  /** The naming of the intermediate files as a function of the counter. */
  function Names(tmpDir: string): nat -> string {
    (k: nat) => TempName(tmpDir, k)
  }

  /** The path the `k`-th intermediate combine writes to. */
  function TempPath(tmpDir: string, k: nat): string {
    CombinePath(TempName(tmpDir, k), Some(tmpDir))
  }

  /** Intermediate files never collide: different counters give different paths. */
  lemma TempPathsDistinct(tmpDir: string, a: nat, b: nat)
    requires a != b
    ensures TempName(tmpDir, a) != TempName(tmpDir, b)
    ensures TempPath(tmpDir, a) != TempPath(tmpDir, b)
  {
    var x, y := NatToString(a) + ".pb", NatToString(b) + ".pb";
    if TempName(tmpDir, a) == TempName(tmpDir, b) {
      PathJoinInjective(tmpDir, x, y);
      assert x[..|x| - 3] == NatToString(a) && y[..|y| - 3] == NatToString(b);
      NatToStringInjective(a, b);
    }
    if TempPath(tmpDir, a) == TempPath(tmpDir, b) {
      if tmpDir != "" {
        var na, nb := TempName(tmpDir, a), TempName(tmpDir, b);
        PathJoinInjective(tmpDir, na, nb);
      }
    }
  }

  /** With a temporary directory given as an absolute path without a trailing `/`, as
      `tempfile` creates it, the second join is harmless: the `k`-th intermediate file is
      `tmpDir/k.pb`, inside the directory that is removed at the end. */
  lemma TempPathInside(tmpDir: string, k: nat)
    requires IsRooted(tmpDir) && tmpDir[|tmpDir| - 1] != '/'
    ensures TempPath(tmpDir, k) == tmpDir + "/" + NatToString(k) + ".pb"
    ensures Under(TempPath(tmpDir, k), tmpDir)
  {
    var p := TempPath(tmpDir, k);
    assert p == tmpDir + "/" + (NatToString(k) + ".pb");
    assert p[..|tmpDir|] == tmpDir;
  }

  /** The inner loop of one merge level: batch `k` is combined into the intermediate file
      numbered `cnt + k`; the results are collected in order. */
  function LevelResult(w: World, run: Oracle, herculesExec: string, tmpDir: string, name: nat -> string, batches: seq<seq<string>>,
                       cnt: nat): (r: (World, seq<Option<string>>))
    ensures |r.1| == |batches|
    decreases |batches|
  {
    if batches == [] then (w, [])
    else
      var k := |batches| - 1;
      var (w1, outs) := LevelResult(w, run, herculesExec, tmpDir, name, batches[..k], cnt);
      var (out, w2) := CombineResult(w1, run, batches[k], name(cnt + k), herculesExec, Some(tmpDir));
      (w2, outs + [out])
  }

  /** Every result of a level is its own intermediate file, which exists afterwards, as does
      every file that existed before. */
  lemma {:induction false} LevelOutputs(w: World, run: Oracle, herculesExec: string, tmpDir: string, name: nat -> string,
                                        batches: seq<seq<string>>, cnt: nat)
    ensures var (w1, outs) := LevelResult(w, run, herculesExec, tmpDir, name, batches, cnt);
            (forall k :: 0 <= k < |outs| && outs[k].Some? ==> outs[k].value == CombinePath(name(cnt + k), Some(tmpDir)))
            && (forall i :: cnt <= i < cnt + |outs| ==> IsFile(w1, CombinePath(name(i), Some(tmpDir))))
            && (forall p :: IsFile(w, p) ==> IsFile(w1, p))
    decreases |batches|
  {
    if batches != [] {
      var k := |batches| - 1;
      LevelOutputs(w, run, herculesExec, tmpDir, name, batches[..k], cnt);
      var (w0, outs0) := LevelResult(w, run, herculesExec, tmpDir, name, batches[..k], cnt);
      var (out, w2) := CombineResult(w0, run, batches[k], name(cnt + k), herculesExec, Some(tmpDir));
      LevelSnoc(w, run, herculesExec, tmpDir, name, batches, cnt, k);
      assert batches[..k + 1] == batches;
      forall i | cnt <= i < cnt + |batches| ensures IsFile(w2, CombinePath(name(i), Some(tmpDir))) {
        if i < cnt + k {
          assert IsFile(w0, CombinePath(name(i), Some(tmpDir)));
        }
      }

    }
  }

  /** What a level produced can be measured: every path it returns names an existing file. */
  lemma LevelProducesFiles(w: World, run: Oracle, herculesExec: string, tmpDir: string, name: nat -> string,
                           batches: seq<seq<string>>, cnt: nat)
    ensures var (w1, outs) := LevelResult(w, run, herculesExec, tmpDir, name, batches, cnt);
            Measurable(w1, outs)
  {
    var (w1, outs) := LevelResult(w, run, herculesExec, tmpDir, name, batches, cnt);
    LevelOutputs(w, run, herculesExec, tmpDir, name, batches, cnt);
    forall k | 0 <= k < |outs| && outs[k].Some? && outs[k].value != "" ensures IsFile(w1, outs[k].value) {
      assert outs[k].value == CombinePath(name(cnt + k), Some(tmpDir));
    }
  }

  /** A level over one more batch is the shorter level followed by the combine of that batch. */
  lemma LevelSnoc(w: World, run: Oracle, herculesExec: string, tmpDir: string, name: nat -> string,
                  batches: seq<seq<string>>, cnt: nat, j: nat)
    requires j < |batches|
    ensures var (w1, outs) := LevelResult(w, run, herculesExec, tmpDir, name, batches[..j], cnt);
            var (out, w2) := CombineResult(w1, run, batches[j], name(cnt + j), herculesExec, Some(tmpDir));
            LevelResult(w, run, herculesExec, tmpDir, name, batches[..j + 1], cnt) == (w2, outs + [out])
  {
    assert batches[..j + 1][..j] == batches[..j];
  }

  /** A level runs one `hercules combine` per batch, in order, the `k`-th writing intermediate
      file `cnt + k`, and nothing else. */
  lemma {:induction false} LevelCalls(w: World, run: Oracle, herculesExec: string, tmpDir: string, name: nat -> string,
                                      batches: seq<seq<string>>, cnt: nat)
    ensures var w1 := LevelResult(w, run, herculesExec, tmpDir, name, batches, cnt).0;
            |w1.calls| == |w.calls| + |batches| && w1.calls[..|w.calls|] == w.calls
            && forall k :: 0 <= k < |batches| ==>
                 w1.calls[|w.calls| + k] == Invocation(CombineCommand(herculesExec, batches[k]), Some(CombinePath(name(cnt + k), Some(tmpDir))))
    decreases |batches|
  {
    if batches != [] {
      var k := |batches| - 1;
      LevelCalls(w, run, herculesExec, tmpDir, name, batches[..k], cnt);
      var w1 := LevelResult(w, run, herculesExec, tmpDir, name, batches[..k], cnt).0;
      var w2 := CombineResult(w1, run, batches[k], name(cnt + k), herculesExec, Some(tmpDir)).1;
      LevelSnoc(w, run, herculesExec, tmpDir, name, batches, cnt, k);
      assert batches[..k + 1] == batches;
      forall j | 0 <= j < |batches|
        ensures w2.calls[|w.calls| + j] == Invocation(CombineCommand(herculesExec, batches[j]), Some(CombinePath(name(cnt + j), Some(tmpDir))))
      {
        if j < k {
          assert batches[..k][j] == batches[j];
          assert w2.calls[|w.calls| + j] == w1.calls[|w.calls| + j];
        }
      }
      assert w2.calls[..|w.calls|] == w1.calls[..|w.calls|];
    }
  }

  /** Every produced, non-empty path names an existing file, so `os.path.getsize` can read it. */
  predicate Measurable(w: World, outs: seq<Option<string>>) {
    forall k :: 0 <= k < |outs| && outs[k].Some? && outs[k].value != "" ==> IsFile(w, outs[k].value)
  }

  /** `[loc for loc in new_stack if loc and os.path.getsize(loc) > 0]`: the intermediate files
      that were produced and are not empty, in order. The source demands that every produced
      path exists, since `getsize` raises otherwise. */
  function Survivors(w: World, outs: seq<Option<string>>): (r: seq<string>)
    requires Measurable(w, outs)
    ensures |r| <= |outs|
  {
    if outs == [] then []
    else
      var k := |outs| - 1;
      var rest := Survivors(w, outs[..k]);
      var o := outs[k];
      if o.None? || o.value == "" then rest
      else if w.files[o.value].size.value > 0 then rest + [o.value] else rest
  }

  /** A path survives exactly when it was produced, is not empty text, and names a non-empty
      file. */
  lemma {:induction false} SurvivorsMembers(w: World, outs: seq<Option<string>>)
    requires Measurable(w, outs)
    ensures forall p :: p in Survivors(w, outs) <==> p != "" && Some(p) in outs && IsFile(w, p) && w.files[p].size.value > 0
    decreases |outs|
  {
    if outs != [] {
      var k := |outs| - 1;
      SurvivorsMembers(w, outs[..k]);
      assert outs == outs[..k] + [outs[k]];
    }
  }

  /** A level keeps its survivors in batch order: the survivors of two runs of outputs are
      those of the first followed by those of the second. */
  lemma {:induction false} SurvivorsAppend(w: World, a: seq<Option<string>>, b: seq<Option<string>>)
    requires Measurable(w, a + b)
    ensures Measurable(w, a) && Measurable(w, b)
    ensures Survivors(w, a + b) == Survivors(w, a) + Survivors(w, b)
    decreases |b|
  {
    assert forall k :: 0 <= k < |a| ==> (a + b)[k] == a[k];
    assert forall k :: 0 <= k < |b| ==> (a + b)[|a| + k] == b[k];
    if b == [] {
      assert a + b == a;
    } else {
      var k := |b| - 1;
      assert (a + b)[..|a + b| - 1] == a + b[..k];
      assert (a + b)[|a + b| - 1] == b[k];
      assert forall j :: 0 <= j < k ==> b[..k][j] == b[j];
      SurvivorsAppend(w, a, b[..k]);
    }
  }

  /** From index `from` on, the `i`-th call writes intermediate file number `cnt + (i - from)`. */
  predicate WritesCounted(calls: seq<Invocation>, from: nat, tmpDir: string, name: nat -> string, cnt: nat) {
    forall i :: from <= i < |calls| ==> calls[i].stdout == Some(CombinePath(name(cnt + (i - from)), Some(tmpDir)))
  }

  /** The calls of one level write intermediate files `cnt`, `cnt + 1`, ... in order. */
  lemma LevelWritesCounted(w: World, run: Oracle, herculesExec: string, tmpDir: string, name: nat -> string,
                           batches: seq<seq<string>>, cnt: nat)
    ensures WritesCounted(LevelResult(w, run, herculesExec, tmpDir, name, batches, cnt).0.calls, |w.calls|, tmpDir, name, cnt)
  {
    var calls := LevelResult(w, run, herculesExec, tmpDir, name, batches, cnt).0.calls;
    LevelCalls(w, run, herculesExec, tmpDir, name, batches, cnt);
    forall i | |w.calls| <= i < |calls|
      ensures calls[i].stdout == Some(CombinePath(name(cnt + (i - |w.calls|)), Some(tmpDir)))
    {
      var k := i - |w.calls|;
      assert calls[|w.calls| + k].stdout == Some(CombinePath(name(cnt + k), Some(tmpDir)));
    }
  }

  /** A counted run of calls followed by a run that continues the count is one counted run. */
  lemma WritesCountedJoin(calls: seq<Invocation>, prefix: seq<Invocation>, from: nat, tmpDir: string, name: nat -> string,
                          cnt: nat, next: nat)
    requires from <= |prefix| <= |calls| && calls[..|prefix|] == prefix && next == cnt + (|prefix| - from)
    requires WritesCounted(prefix, from, tmpDir, name, cnt)
    requires WritesCounted(calls, |prefix|, tmpDir, name, next)
    ensures WritesCounted(calls, from, tmpDir, name, cnt)
  {
    forall i | from <= i < |calls|
      ensures calls[i].stdout == Some(CombinePath(name(cnt + (i - from)), Some(tmpDir)))
    {
      if i < |prefix| {
        assert calls[i] == calls[..|prefix|][i];
      } else {
        assert next + (i - |prefix|) == cnt + (i - from);
      }
    }
  }

  /** One turn of the `while` loop of `merge_statistics`: combine the batches of the level
      and keep the non-empty results. With at least two files per batch the stack gets
      shorter. */
  function LevelStep(w: World, run: Oracle, herculesExec: string, tmpDir: string, name: nat -> string, stack: seq<string>, n: nat,
                     cnt: nat): (r: (World, seq<string>, nat))
    requires n >= 2 && |stack| > n
    ensures |r.1| <= CeilDiv(|stack|, n) < |stack|
    ensures r.2 == cnt + |Batches(stack, n)|
    ensures |r.0.calls| == |w.calls| + |Batches(stack, n)| && r.0.calls[..|w.calls|] == w.calls
    ensures WritesCounted(r.0.calls, |w.calls|, tmpDir, name, cnt)
  {
    LevelWritesCounted(w, run, herculesExec, tmpDir, name, Batches(stack, n), cnt);
    var level := LevelResult(w, run, herculesExec, tmpDir, name, Batches(stack, n), cnt);
    LevelCalls(w, run, herculesExec, tmpDir, name, Batches(stack, n), cnt);
    LevelProducesFiles(w, run, herculesExec, tmpDir, name, Batches(stack, n), cnt);
    BatchesPartition(stack, n);
    LevelShrinks(|stack|, n);
    (level.0, Survivors(level.0, level.1), cnt + |Batches(stack, n)|)
  }

  /** The `while` loop of `merge_statistics`: while more than `n` files remain, take a level
      step. Yields the final world, the files left and the next counter value. */
  function ReduceResult(w: World, run: Oracle, herculesExec: string, tmpDir: string, name: nat -> string, stack: seq<string>, n: nat,
                        cnt: nat): (r: (World, seq<string>, nat))
    requires n >= 2
    ensures |r.1| <= n
    ensures r.2 >= cnt
    ensures |r.0.calls| == |w.calls| + (r.2 - cnt) && r.0.calls[..|w.calls|] == w.calls
    ensures WritesCounted(r.0.calls, |w.calls|, tmpDir, name, cnt)
    decreases |stack|
  {
    if |stack| <= n then (w, stack, cnt)
    else
      var step := LevelStep(w, run, herculesExec, tmpDir, name, stack, n, cnt);
      var r := ReduceResult(step.0, run, herculesExec, tmpDir, name, step.1, n, step.2);
      assert r.0.calls[..|w.calls|] == r.0.calls[..|step.0.calls|][..|w.calls|];
      WritesCountedJoin(r.0.calls, step.0.calls, |w.calls|, tmpDir, name, cnt, step.2);
      r
  }

  /** One turn of the loop of `merge_statistics` keeps the outcome of the whole reduction: if
      the state before the level reduces to `target`, so does the state after it. */
  lemma ReduceTurn(w: World, run: Oracle, herculesExec: string, tmpDir: string, name: nat -> string, stack: seq<string>, n: nat,
                   cnt: nat, w1: World, outs: seq<Option<string>>, next: seq<string>, cnt1: nat, target: (World, seq<string>, nat))
    requires n >= 2 && |stack| > n
    requires w1 == LevelResult(w, run, herculesExec, tmpDir, name, Batches(stack, n), cnt).0
    requires outs == LevelResult(w, run, herculesExec, tmpDir, name, Batches(stack, n), cnt).1
    requires Measurable(w1, outs) && next == Survivors(w1, outs) && cnt1 == cnt + |Batches(stack, n)|
    requires ReduceResult(w, run, herculesExec, tmpDir, name, stack, n, cnt) == target
    ensures ReduceResult(w1, run, herculesExec, tmpDir, name, next, n, cnt1) == target
  {
    var step := LevelStep(w, run, herculesExec, tmpDir, name, stack, n, cnt);
    assert step.0 == w1;
    assert step.1 == next;
    assert step.2 == cnt1;
    assert ReduceResult(w, run, herculesExec, tmpDir, name, stack, n, cnt)
        == ReduceResult(step.0, run, herculesExec, tmpDir, name, step.1, n, step.2);
  }

  /** `merge_statistics(filenames, output_filepath, hercules_exec, n_samples)` with `tmpDir` the
      directory `tempfile.TemporaryDirectory` picks. */
  function MergeResult(w: World, run: Oracle, outcomes: seq<HS.Report>, outputFilepath: string, herculesExec: string,
                       nSamples: int, tmpDir: string): (r: (Outcome<Option<string>>, World))
    requires nSamples != 1
  {
    match FilterDated(w, Locations(outcomes))
    case Raised(e) => (Raised(e), w)
    case Returned(stack) =>
      if nSamples > 0 then
        var w1 := MakeDirsIn(w, tmpDir);
        var (w2, top, _) := ReduceResult(w1, run, herculesExec, tmpDir, Names(tmpDir), stack, nSamples, 0);
        var (out, w3) := CombineResult(w2, run, top, outputFilepath, herculesExec, None);
        (Returned(out), RemoveTreeIn(w3, tmpDir))
      else
        var (out, w1) := CombineResult(w, run, stack, outputFilepath, herculesExec, None);
        (Returned(out), w1)
  }

  /** The filter stops at the first header that cannot be read: if the paths before it all
      read, the whole filter raises that header's error, whatever follows. */
  lemma {:induction false} FilterRaisesFirst(w: World, locs: seq<string>, i: nat)
    requires i < |locs| && FilterDated(w, locs[..i]).Returned? && StartsWithZeroTimestamp(w, locs[i]).Raised?
    ensures FilterDated(w, locs) == Raised(StartsWithZeroTimestamp(w, locs[i]).error)
    decreases |locs|
  {
    var k := |locs| - 1;
    var e := StartsWithZeroTimestamp(w, locs[i]).error;
    if i < k {
      assert locs[..k][..i] == locs[..i] && locs[..k][i] == locs[i];
      FilterRaisesFirst(w, locs[..k], i);
      assert FilterDated(w, locs[..k]) == Raised(e);
    } else {
      assert locs[..k] == locs[..i];
      assert locs[k] == locs[i];
    }
  }

  /** The filtering loop of `merge_statistics`: reads headers and changes nothing. */
  method FilterLocations(m: Machine, locations: seq<string>) returns (r: Outcome<seq<string>>)
    ensures r == FilterDated(m.State(), locations)
  {
    var filtered: seq<string> := [];
    for i := 0 to |locations|
      invariant FilterDated(m.State(), locations[..i]) == Returned(filtered)
    {
      var loc := locations[i];
      var zero := StartsWithZeroTimestamp(m.State(), loc);
      if zero.Raised? {
        FilterRaisesFirst(m.State(), locations, i);
        return Raised(zero.error);
      }
      assert locations[..i + 1][..i] == locations[..i];
      if !zero.value {
        filtered := filtered + [loc];
      }
    }
    assert locations[..|locations|] == locations;
    return Returned(filtered);
  }

  /** One pass of the `for` loop over `slice_max_n(len(file_stack), n_samples)`: combines each
      batch into the next intermediate file and collects the results. */
  method CombineLevel(m: Machine, fileStack: seq<string>, n: nat, herculesExec: string, tmpDir: string, cnt: nat)
    returns (newStack: seq<Option<string>>, fileCnter: nat)
    requires n > 0
    modifies m
    ensures m.State() == LevelResult(old(m.State()), m.run, herculesExec, tmpDir, Names(tmpDir), Batches(fileStack, n), cnt).0
    ensures newStack == LevelResult(old(m.State()), m.run, herculesExec, tmpDir, Names(tmpDir), Batches(fileStack, n), cnt).1
    ensures fileCnter == cnt + |Batches(fileStack, n)|
  {
    ghost var w := m.State();
    ghost var batches := Batches(fileStack, n);
    var pairs := SliceMaxN(|fileStack|, n);
    newStack := [];
    fileCnter := cnt;
    for j := 0 to |pairs|
      invariant fileCnter == cnt + j
      invariant m.State() == LevelResult(w, m.run, herculesExec, tmpDir, Names(tmpDir), batches[..j], cnt).0
      invariant newStack == LevelResult(w, m.run, herculesExec, tmpDir, Names(tmpDir), batches[..j], cnt).1
    {
      var (start, end) := pairs[j];
      var newTmpLoc := PathJoin(tmpDir, NatToString(fileCnter) + ".pb");
      ghost var wj := m.State();
      var out := Combine(m, PySlice(fileStack, start, end), newTmpLoc, herculesExec, Some(tmpDir));
      LevelSnoc(w, m.run, herculesExec, tmpDir, Names(tmpDir), batches, cnt, j);
      assert newTmpLoc == Names(tmpDir)(cnt + j);
      newStack := newStack + [out];
      fileCnter := fileCnter + 1;
    }
    assert batches[..|pairs|] == batches;
  }

  /** `merge_statistics`: the live version of `MergeResult`. */
  method MergeStatistics(m: Machine, outcomes: seq<HS.Report>, outputFilepath: string, herculesExec: string,
                         nSamples: int, tmpDir: string) returns (r: Outcome<Option<string>>)
    requires nSamples != 1
    modifies m
    ensures (r, m.State()) == MergeResult(old(m.State()), m.run, outcomes, outputFilepath, herculesExec, nSamples, tmpDir)
  {
    var locations := Locations(outcomes);
    var filtered := FilterLocations(m, locations);
    if filtered.Raised? {
      return Raised(filtered.error);
    }
    var fileStack := filtered.value;
    if nSamples > 0 {
      var fileCnter: nat := 0;
      m.MakeTempDir(tmpDir);
      ghost var target := ReduceResult(m.State(), m.run, herculesExec, tmpDir, Names(tmpDir), fileStack, nSamples, 0);
      while |fileStack| > nSamples
        invariant ReduceResult(m.State(), m.run, herculesExec, tmpDir, Names(tmpDir), fileStack, nSamples, fileCnter) == target
        decreases |fileStack|
      {
        var newStack;
        ghost var wl, stack0, cnt0 := m.State(), fileStack, fileCnter;
        newStack, fileCnter := CombineLevel(m, fileStack, nSamples, herculesExec, tmpDir, fileCnter);
        LevelProducesFiles(wl, m.run, herculesExec, tmpDir, Names(tmpDir), Batches(stack0, nSamples), cnt0);
        fileStack := Survivors(m.State(), newStack);
        ReduceTurn(wl, m.run, herculesExec, tmpDir, Names(tmpDir), stack0, nSamples, cnt0, m.State(), newStack, fileStack, fileCnter, target);
      }
      var out := Combine(m, fileStack, outputFilepath, herculesExec, None);
      m.RemoveTree(tmpDir);
      return Returned(out);
    }
    var out := Combine(m, fileStack, outputFilepath, herculesExec, None);
    return Returned(out);
  }

  /** Collecting the paths keeps the order of the outcomes. */
  lemma {:induction false} LocationsAppend(a: seq<HS.Report>, b: seq<HS.Report>)
    ensures Locations(a + b) == Locations(a) + Locations(b)
    decreases |b|
  {
    if b == [] {
      assert a + b == a;
    } else {
      var k := |b| - 1;
      assert (a + b)[..|a + b| - 1] == a + b[..k];
      LocationsAppend(a, b[..k]);
    }
  }

  /** Filtering keeps the order of the paths: filtering a concatenation concatenates the
      filtered halves. */
  lemma {:induction false} FilterDatedAppend(w: World, a: seq<string>, b: seq<string>)
    requires FilterDated(w, a).Returned? && FilterDated(w, b).Returned?
    ensures FilterDated(w, a + b) == Returned(FilterDated(w, a).value + FilterDated(w, b).value)
    decreases |b|
  {
    if b == [] {
      assert a + b == a;
      assert FilterDated(w, a).value + [] == FilterDated(w, a).value;
    } else {
      var k := |b| - 1;
      var init, x := b[..k], b[k];
      assert b == init + [x];
      assert a + b == (a + init) + [x];
      FilterDatedSnoc(w, init, x);
      FilterDatedAppend(w, a, init);
      FilterDatedSnoc(w, a + init, x);
      var fa, fb := FilterDated(w, a).value, FilterDated(w, init).value;
      var zero := StartsWithZeroTimestamp(w, x);
      if !zero.value {
        SnocAssoc(fa, fb, x);
      }
    }
  }

  lemma SnocAssoc<T>(p: seq<T>, q: seq<T>, x: T)
    ensures p + (q + [x]) == (p + q) + [x]
  {
  }

  /** The filter over one more path: the filter of the shorter list, then that path's header. */
  lemma FilterDatedSnoc(w: World, init: seq<string>, x: string)
    ensures FilterDated(w, init + [x])
         == match FilterDated(w, init)
            case Raised(e) => Raised(e)
            case Returned(kept) =>
              match StartsWithZeroTimestamp(w, x)
              case Raised(e) => Raised(e)
              case Returned(zero) => Returned(if zero then kept else kept + [x])
  {
    assert (init + [x])[..|init|] == init;
  }

  /** A header that cannot be read stops the merge before anything runs: the exception
      propagates and the environment is untouched. */
  lemma MergeRaisesOnUnreadableHeader(w: World, run: Oracle, outcomes: seq<HS.Report>, outputFilepath: string,
                                      herculesExec: string, nSamples: int, tmpDir: string, p: string)
    requires nSamples != 1
    requires p in Locations(outcomes) && StartsWithZeroTimestamp(w, p).Raised?
    ensures MergeResult(w, run, outcomes, outputFilepath, herculesExec, nSamples, tmpDir).0.Raised?
    ensures MergeResult(w, run, outcomes, outputFilepath, herculesExec, nSamples, tmpDir).1 == w
  {
  }

  /** Without sampling (`n_samples <= 0`) all usable statistics go to one `hercules combine`
      whose output is the target file; the merge succeeds exactly when that run does. */
  lemma MergeFlat(w: World, run: Oracle, outcomes: seq<HS.Report>, outputFilepath: string, herculesExec: string,
                  nSamples: int, tmpDir: string)
    requires nSamples <= 0 && FilterDated(w, Locations(outcomes)).Returned?
    ensures var (r, w1) := MergeResult(w, run, outcomes, outputFilepath, herculesExec, nSamples, tmpDir);
            var cmd := CombineCommand(herculesExec, FilterDated(w, Locations(outcomes)).value);
            w1.calls == w.calls + [Invocation(cmd, Some(outputFilepath))]
            && w1.dirs == w.dirs
            && (r == Returned(Some(outputFilepath)) <==> run(cmd).status == 0)
            && (r == Returned(None) <==> run(cmd).status != 0)
  {
  }

  lemma {:induction false} LocationsOfNone(outcomes: seq<HS.Report>)
    requires forall k :: 0 <= k < |outcomes| ==> outcomes[k].1 == None
    ensures Locations(outcomes) == []
  {
    if outcomes != [] {
      LocationsOfNone(outcomes[..|outcomes| - 1]);
    }
  }

  /** Repositories that produced nothing still lead to a `hercules combine` with no inputs:
      the merge does not stop early on an empty list. */
  lemma EmptyInputStillCombines(w: World, run: Oracle, outcomes: seq<HS.Report>, outputFilepath: string,
                                herculesExec: string, nSamples: int, tmpDir: string)
    requires nSamples != 1
    requires forall k :: 0 <= k < |outcomes| ==> outcomes[k].1 == None
    ensures var (r, w1) := MergeResult(w, run, outcomes, outputFilepath, herculesExec, nSamples, tmpDir);
            r.Returned? && w1.calls == w.calls + [Invocation([herculesExec, "combine"], Some(outputFilepath))]
  {
    LocationsOfNone(outcomes);
    var (r, w1) := MergeResult(w, run, outcomes, outputFilepath, herculesExec, nSamples, tmpDir);
    assert CombineCommand(herculesExec, []) == [herculesExec, "combine"];
    if nSamples > 0 {
      var w2 := MakeDirsIn(w, tmpDir);
      assert ReduceResult(w2, run, herculesExec, tmpDir, Names(tmpDir), [], nSamples, 0) == (w2, [], 0);
    }
  }

  /** The steps of a sampled merge once the filter has passed: create the temporary directory,
      reduce, combine what is left into the target, remove the directory. */
  lemma MergeSampledSteps(w: World, run: Oracle, outcomes: seq<HS.Report>, outputFilepath: string, herculesExec: string,
                          nSamples: int, tmpDir: string)
    requires nSamples >= 2 && FilterDated(w, Locations(outcomes)).Returned?
    ensures var (w2, top, _) := ReduceResult(MakeDirsIn(w, tmpDir), run, herculesExec, tmpDir, Names(tmpDir),
                                             FilterDated(w, Locations(outcomes)).value, nSamples, 0);
            var (out, w3) := CombineResult(w2, run, top, outputFilepath, herculesExec, None);
            MergeResult(w, run, outcomes, outputFilepath, herculesExec, nSamples, tmpDir) == (Returned(out), RemoveTreeIn(w3, tmpDir))
  {
  }

  /** With sampling, the calls of a merge are those of the levels followed by one final
      `hercules combine` of the surviving files into the target. */
  lemma MergeSampledCalls(w: World, run: Oracle, outcomes: seq<HS.Report>, outputFilepath: string, herculesExec: string,
                          nSamples: int, tmpDir: string)
    requires nSamples >= 2 && FilterDated(w, Locations(outcomes)).Returned?
    ensures var w1 := MergeResult(w, run, outcomes, outputFilepath, herculesExec, nSamples, tmpDir).1;
            var (w3, top, cnt) := ReduceResult(MakeDirsIn(w, tmpDir), run, herculesExec, tmpDir, Names(tmpDir),
                                               FilterDated(w, Locations(outcomes)).value, nSamples, 0);
            |w3.calls| == |w.calls| + cnt && |w1.calls| == |w3.calls| + 1
            && w1.calls[..|w.calls|] == w.calls && w1.calls[..|w3.calls|] == w3.calls
            && w1.calls[|w1.calls| - 1] == Invocation(CombineCommand(herculesExec, top), Some(outputFilepath))
  {
    var stack := FilterDated(w, Locations(outcomes)).value;
    var w2 := MakeDirsIn(w, tmpDir);
    var (w3, top, cnt) := ReduceResult(w2, run, herculesExec, tmpDir, Names(tmpDir), stack, nSamples, 0);
    var (out, w4) := CombineResult(w3, run, top, outputFilepath, herculesExec, None);
    MergeSampledSteps(w, run, outcomes, outputFilepath, herculesExec, nSamples, tmpDir);
    assert w4.calls[..|w.calls|] == w3.calls[..|w.calls|];
    assert w4.calls[..|w3.calls|] == w3.calls;
  }

  /** With sampling, at most `n_samples` files survive the levels; the merge succeeds exactly
      when their final combine does, and the temporary directory is gone afterwards, with
      everything in it. */
  lemma MergeSampled(w: World, run: Oracle, outcomes: seq<HS.Report>, outputFilepath: string, herculesExec: string,
                     nSamples: int, tmpDir: string)
    requires nSamples >= 2 && FilterDated(w, Locations(outcomes)).Returned?
    ensures var (r, w1) := MergeResult(w, run, outcomes, outputFilepath, herculesExec, nSamples, tmpDir);
            var top := ReduceResult(MakeDirsIn(w, tmpDir), run, herculesExec, tmpDir, Names(tmpDir),
                                    FilterDated(w, Locations(outcomes)).value, nSamples, 0).1;
            var cmd := CombineCommand(herculesExec, top);
            |top| <= nSamples
            && (r == Returned(Some(outputFilepath)) <==> run(cmd).status == 0)
            && (r == Returned(None) <==> run(cmd).status != 0)
            && (forall x :: x in w1.files ==> !Under(x, tmpDir))
            && (forall x :: x in w1.dirs ==> !Under(x, tmpDir))
  {
    MergeSampledSteps(w, run, outcomes, outputFilepath, herculesExec, nSamples, tmpDir);
  }

  /** Whether it succeeds or not, a merge that gets past the filter leaves a file at
      `output_filepath` (it is opened for writing before the final combine runs), as long as
      that path is outside the temporary directory removed at the end. */
  lemma MergeLeavesOutput(w: World, run: Oracle, outcomes: seq<HS.Report>, outputFilepath: string, herculesExec: string,
                          nSamples: int, tmpDir: string)
    requires nSamples != 1 && FilterDated(w, Locations(outcomes)).Returned?
    requires !Under(outputFilepath, tmpDir)
    ensures IsFile(MergeResult(w, run, outcomes, outputFilepath, herculesExec, nSamples, tmpDir).1, outputFilepath)
  {
    var stack := FilterDated(w, Locations(outcomes)).value;
    if nSamples > 0 {
      MergeSampledSteps(w, run, outcomes, outputFilepath, herculesExec, nSamples, tmpDir);
      var (w2, top, _) := ReduceResult(MakeDirsIn(w, tmpDir), run, herculesExec, tmpDir, Names(tmpDir), stack, nSamples, 0);
      var (out, w3) := CombineResult(w2, run, top, outputFilepath, herculesExec, None);
      assert IsFile(w3, outputFilepath);
    }
  }

  /** When no more than `n_samples` files remain after filtering, no intermediate file is made:
      the one `hercules combine` writes the target directly. */
  lemma MergeSmallInput(w: World, run: Oracle, outcomes: seq<HS.Report>, outputFilepath: string, herculesExec: string,
                        nSamples: int, tmpDir: string)
    requires nSamples >= 2 && FilterDated(w, Locations(outcomes)).Returned?
    requires |FilterDated(w, Locations(outcomes)).value| <= nSamples
    ensures MergeResult(w, run, outcomes, outputFilepath, herculesExec, nSamples, tmpDir).1.calls
            == w.calls + [Invocation(CombineCommand(herculesExec, FilterDated(w, Locations(outcomes)).value), Some(outputFilepath))]
  {
  }

  /** A reduction with more than `n` files keeps the calls of its first level in front. */
  lemma ReduceKeepsLevel(w: World, run: Oracle, herculesExec: string, tmpDir: string, name: nat -> string, stack: seq<string>,
                         n: nat, cnt: nat)
    requires n >= 2 && |stack| > n
    ensures var level := LevelResult(w, run, herculesExec, tmpDir, name, Batches(stack, n), cnt).0.calls;
            var calls := ReduceResult(w, run, herculesExec, tmpDir, name, stack, n, cnt).0.calls;
            |level| <= |calls| && calls[..|level|] == level
  {
    var step := LevelStep(w, run, herculesExec, tmpDir, name, stack, n, cnt);
    var r := ReduceResult(step.0, run, herculesExec, tmpDir, name, step.1, n, step.2);
    assert ReduceResult(w, run, herculesExec, tmpDir, name, stack, n, cnt).0 == r.0;
  }

  /** The first calls of a reduction with more than `n` files are the combines of that
      level's batches: the `k`-th writes intermediate file `cnt + k`. */
  lemma ReduceFirstLevel(w: World, run: Oracle, herculesExec: string, tmpDir: string, stack: seq<string>, n: nat, k: nat)
    requires n >= 2 && |stack| > n && k < |Batches(stack, n)|
    ensures var w1 := ReduceResult(w, run, herculesExec, tmpDir, Names(tmpDir), stack, n, 0).0;
            |w1.calls| >= |w.calls| + |Batches(stack, n)|
            && w1.calls[|w.calls| + k] == Invocation(CombineCommand(herculesExec, Batches(stack, n)[k]), Some(TempPath(tmpDir, k)))
  {
    var batches := Batches(stack, n);
    LevelCalls(w, run, herculesExec, tmpDir, Names(tmpDir), batches, 0);
    ReduceKeepsLevel(w, run, herculesExec, tmpDir, Names(tmpDir), stack, n, 0);
    var level := LevelResult(w, run, herculesExec, tmpDir, Names(tmpDir), batches, 0).0.calls;
    var calls := ReduceResult(w, run, herculesExec, tmpDir, Names(tmpDir), stack, n, 0).0.calls;
    assert calls[..|level|][|w.calls| + k] == calls[|w.calls| + k];
    NamesAt(tmpDir, k);
  }

  /** Different counter values name different intermediate targets. */
  ghost predicate DistinctTargets(tmpDir: string, name: nat -> string) {
    forall a: nat, b: nat :: a != b ==> CombinePath(name(a), Some(tmpDir)) != CombinePath(name(b), Some(tmpDir))
  }

  /** The source's naming `os.path.join(tmp_dir, f"{k}.pb")` never gives two counters one target. */
  lemma NamesDistinct(tmpDir: string)
    ensures DistinctTargets(tmpDir, Names(tmpDir))
  {
    forall a: nat, b: nat | a != b
      ensures CombinePath(Names(tmpDir)(a), Some(tmpDir)) != CombinePath(Names(tmpDir)(b), Some(tmpDir))
    {
      NamesAt(tmpDir, a);
      NamesAt(tmpDir, b);
      TempPathsDistinct(tmpDir, a, b);
    }
  }

  /** No intermediate file is written twice: since the counter is never reset between levels,
      different combines of the whole reduction, in the same level or in different ones, write
      different files. */
  lemma ReduceTargetsDistinct(w: World, run: Oracle, herculesExec: string, tmpDir: string, name: nat -> string,
                              stack: seq<string>, n: nat, cnt: nat, i: nat, j: nat)
    requires n >= 2 && DistinctTargets(tmpDir, name)
    requires |w.calls| <= i < j < |ReduceResult(w, run, herculesExec, tmpDir, name, stack, n, cnt).0.calls|
    ensures var calls := ReduceResult(w, run, herculesExec, tmpDir, name, stack, n, cnt).0.calls;
            calls[i].stdout != calls[j].stdout
  {
    var calls := ReduceResult(w, run, herculesExec, tmpDir, name, stack, n, cnt).0.calls;
    CountedDistinct(calls, |w.calls|, tmpDir, name, cnt, i, j);
  }

  /** In a sampled merge, no two combines of the levels write the same intermediate file. */
  lemma MergeTargetsDistinct(w: World, run: Oracle, outcomes: seq<HS.Report>, outputFilepath: string, herculesExec: string,
                             nSamples: int, tmpDir: string, i: nat, j: nat)
    requires nSamples >= 2 && FilterDated(w, Locations(outcomes)).Returned?
    requires |w.calls| <= i < j < |MergeResult(w, run, outcomes, outputFilepath, herculesExec, nSamples, tmpDir).1.calls| - 1
    ensures var calls := MergeResult(w, run, outcomes, outputFilepath, herculesExec, nSamples, tmpDir).1.calls;
            calls[i].stdout != calls[j].stdout
  {
    var stack := FilterDated(w, Locations(outcomes)).value;
    var w2 := MakeDirsIn(w, tmpDir);
    var w3 := ReduceResult(w2, run, herculesExec, tmpDir, Names(tmpDir), stack, nSamples, 0).0;
    var w1 := MergeResult(w, run, outcomes, outputFilepath, herculesExec, nSamples, tmpDir).1;
    MergeSampledCalls(w, run, outcomes, outputFilepath, herculesExec, nSamples, tmpDir);
    NamesDistinct(tmpDir);
    ReduceTargetsDistinct(w2, run, herculesExec, tmpDir, Names(tmpDir), stack, nSamples, 0, i, j);
    assert w1.calls[..|w3.calls|][i] == w1.calls[i] && w1.calls[..|w3.calls|][j] == w1.calls[j];
  }

  lemma CountedDistinct(calls: seq<Invocation>, from: nat, tmpDir: string, name: nat -> string, cnt: nat, i: nat, j: nat)
    requires from <= i < j < |calls| && WritesCounted(calls, from, tmpDir, name, cnt) && DistinctTargets(tmpDir, name)
    ensures calls[i].stdout != calls[j].stdout
  {
    assert calls[i].stdout == Some(CombinePath(name(cnt + (i - from)), Some(tmpDir)));
    assert calls[j].stdout == Some(CombinePath(name(cnt + (j - from)), Some(tmpDir)));
  }

  /** The first level of a sampled merge combines the batches of the filtered files (see
      `BatchesPartition`), the `k`-th batch into the `k`-th intermediate file. */
  lemma MergeFirstLevel(w: World, run: Oracle, outcomes: seq<HS.Report>, outputFilepath: string, herculesExec: string,
                        nSamples: int, tmpDir: string)
    requires nSamples >= 2 && FilterDated(w, Locations(outcomes)).Returned?
    requires |FilterDated(w, Locations(outcomes)).value| > nSamples
    ensures var batches := Batches(FilterDated(w, Locations(outcomes)).value, nSamples);
            var w1 := MergeResult(w, run, outcomes, outputFilepath, herculesExec, nSamples, tmpDir).1;
            |w1.calls| > |w.calls| + |batches|
            && forall k :: 0 <= k < |batches| ==>
                 w1.calls[|w.calls| + k] == Invocation(CombineCommand(herculesExec, batches[k]), Some(TempPath(tmpDir, k)))
  {
    var stack := FilterDated(w, Locations(outcomes)).value;
    var batches := Batches(stack, nSamples);
    var w2 := MakeDirsIn(w, tmpDir);
    assert |w2.calls| == |w.calls|;
    MergeSampledCalls(w, run, outcomes, outputFilepath, herculesExec, nSamples, tmpDir);
    var w4 := ReduceResult(w2, run, herculesExec, tmpDir, Names(tmpDir), stack, nSamples, 0).0;
    var w1 := MergeResult(w, run, outcomes, outputFilepath, herculesExec, nSamples, tmpDir).1;
    if |batches| > 0 {
      ReduceFirstLevel(w2, run, herculesExec, tmpDir, stack, nSamples, 0);
    }
    forall k | 0 <= k < |batches|
      ensures w1.calls[|w.calls| + k] == Invocation(CombineCommand(herculesExec, batches[k]), Some(TempPath(tmpDir, k)))
    {
      ReduceFirstLevel(w2, run, herculesExec, tmpDir, stack, nSamples, k);
      assert w1.calls[..|w4.calls|][|w2.calls| + k] == w1.calls[|w2.calls| + k];
    }
  }

  /** The counter-to-name function gives the source's intermediate names. */
  lemma NamesAt(tmpDir: string, k: nat)
    ensures CombinePath(Names(tmpDir)(0 + k), Some(tmpDir)) == TempPath(tmpDir, k)
  {
  }

  predicate NonEmptyFile(w: World, p: string) {
    IsFile(w, p) && w.files[p].size.value > 0
  }

  /** A run that writes something keeps non-empty files non-empty and makes its target one. */
  lemma CombineKeepsNonEmpty(w: World, run: Oracle, files: seq<string>, outputFilename: string, herculesExec: string,
                             outputDir: Option<string>)
    requires run(CombineCommand(herculesExec, files)).size > 0
    ensures var w1 := CombineResult(w, run, files, outputFilename, herculesExec, outputDir).1;
            NonEmptyFile(w1, CombinePath(outputFilename, outputDir))
            && forall p :: NonEmptyFile(w, p) ==> NonEmptyFile(w1, p)
  {
  }

  /** If every `hercules combine` of a level succeeds, each result is its intermediate file. */
  lemma {:induction false} LevelAllSucceed(w: World, run: Oracle, herculesExec: string, tmpDir: string, name: nat -> string,
                                           batches: seq<seq<string>>, cnt: nat)
    requires forall k :: 0 <= k < |batches| ==> run(CombineCommand(herculesExec, batches[k])).status == 0
    ensures var outs := LevelResult(w, run, herculesExec, tmpDir, name, batches, cnt).1;
            forall k :: 0 <= k < |outs| ==> outs[k] == Some(CombinePath(name(cnt + k), Some(tmpDir)))
    decreases |batches|
  {
    if batches != [] {
      var k := |batches| - 1;
      assert forall j :: 0 <= j < k ==> batches[..k][j] == batches[j];
      LevelAllSucceed(w, run, herculesExec, tmpDir, name, batches[..k], cnt);
      var (w0, outs0) := LevelResult(w, run, herculesExec, tmpDir, name, batches[..k], cnt);
      var (out, w2) := CombineResult(w0, run, batches[k], name(cnt + k), herculesExec, Some(tmpDir));
      LevelSnoc(w, run, herculesExec, tmpDir, name, batches, cnt, k);
      assert batches[..k + 1] == batches;
      assert out == Some(CombinePath(name(cnt + k), Some(tmpDir)));
      var outs := outs0 + [out];
      forall j | 0 <= j < |outs| ensures outs[j] == Some(CombinePath(name(cnt + j), Some(tmpDir))) {
        if j < k { assert outs[j] == outs0[j]; }
      }
    }
  }

  /** If every `hercules combine` of a level writes something, every intermediate file of the
      level is non-empty afterwards. */
  lemma {:induction false} LevelAllNonEmpty(w: World, run: Oracle, herculesExec: string, tmpDir: string, name: nat -> string,
                                            batches: seq<seq<string>>, cnt: nat)
    requires forall k :: 0 <= k < |batches| ==> run(CombineCommand(herculesExec, batches[k])).size > 0
    ensures var w1 := LevelResult(w, run, herculesExec, tmpDir, name, batches, cnt).0;
            forall i :: cnt <= i < cnt + |batches| ==> NonEmptyFile(w1, CombinePath(name(i), Some(tmpDir)))
    decreases |batches|
  {
    if batches != [] {
      var k := |batches| - 1;
      assert forall j :: 0 <= j < k ==> batches[..k][j] == batches[j];
      LevelAllNonEmpty(w, run, herculesExec, tmpDir, name, batches[..k], cnt);
      var w0 := LevelResult(w, run, herculesExec, tmpDir, name, batches[..k], cnt).0;
      CombineKeepsNonEmpty(w0, run, batches[k], name(cnt + k), herculesExec, Some(tmpDir));
      LevelSnoc(w, run, herculesExec, tmpDir, name, batches, cnt, k);
      assert batches[..k + 1] == batches;
    }
  }

  /** Survivors keep every produced, non-empty file. */
  lemma {:induction false} SurvivorsKeepAll(w: World, outs: seq<Option<string>>)
    requires forall k :: 0 <= k < |outs| ==>
               outs[k].Some? && outs[k].value != "" && IsFile(w, outs[k].value) && w.files[outs[k].value].size.value > 0
    ensures |Survivors(w, outs)| == |outs|
  {
    if outs != [] {
      SurvivorsKeepAll(w, outs[..|outs| - 1]);
    }
  }

  /** A level whose combines all succeed with some output, into paths that are not empty text,
      keeps one file per batch. */
  lemma LevelKeepsAll(w: World, run: Oracle, herculesExec: string, tmpDir: string, name: nat -> string,
                      batches: seq<seq<string>>, cnt: nat)
    requires forall k :: 0 <= k < |batches| ==>
               run(CombineCommand(herculesExec, batches[k])).status == 0 && run(CombineCommand(herculesExec, batches[k])).size > 0
    requires forall i :: cnt <= i < cnt + |batches| ==> CombinePath(name(i), Some(tmpDir)) != ""
    ensures var (w1, outs) := LevelResult(w, run, herculesExec, tmpDir, name, batches, cnt);
            Measurable(w1, outs) && |Survivors(w1, outs)| == |batches|
  {
    LevelProducesFiles(w, run, herculesExec, tmpDir, name, batches, cnt);
    LevelAllSucceed(w, run, herculesExec, tmpDir, name, batches, cnt);
    LevelAllNonEmpty(w, run, herculesExec, tmpDir, name, batches, cnt);
    var (w1, outs) := LevelResult(w, run, herculesExec, tmpDir, name, batches, cnt);
    forall k | 0 <= k < |outs|
      ensures outs[k].Some? && outs[k].value != "" && IsFile(w1, outs[k].value) && w1.files[outs[k].value].size.value > 0
    {
      assert outs[k] == Some(CombinePath(name(cnt + k), Some(tmpDir)));
      assert NonEmptyFile(w1, CombinePath(name(cnt + k), Some(tmpDir)));
    }
    SurvivorsKeepAll(w1, outs);
  }

  /** The intermediate paths are never empty text. */
  lemma TempPathNotEmpty(tmpDir: string, i: nat)
    ensures CombinePath(Names(tmpDir)(i), Some(tmpDir)) != ""
  {
    assert TempName(tmpDir, i) != "";
  }

  /** With `n_samples == 1` every batch holds one file, so when every combine succeeds with a
      non-empty output a level leaves as many files as it started with: the `while` loop of
      `merge_statistics` makes no progress and never ends. */
  lemma NoProgressWithOne(w: World, run: Oracle, herculesExec: string, tmpDir: string, stack: seq<string>, cnt: nat)
    requires forall argv :: run(argv).status == 0 && run(argv).size > 0
    ensures var (w1, outs) := LevelResult(w, run, herculesExec, tmpDir, Names(tmpDir), Batches(stack, 1), cnt);
            Measurable(w1, outs) && |Survivors(w1, outs)| == |stack|
  {
    var batches := Batches(stack, 1);
    BatchesPartition(stack, 1);
    assert CeilDiv(|stack|, 1) == |stack|;
    forall i | cnt <= i < cnt + |batches| ensures CombinePath(Names(tmpDir)(i), Some(tmpDir)) != "" {
      TempPathNotEmpty(tmpDir, i);
    }
    LevelKeepsAll(w, run, herculesExec, tmpDir, Names(tmpDir), batches, cnt);
  }
}
