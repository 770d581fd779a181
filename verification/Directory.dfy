/** Runs of `find_allocation` calls, seen as operations on a directory from names to regions. */
module Directory {
  import opened ObjectPool
  import opened PoolDriver

  /** One call, the machine that made it, and its answer. */
  datatype Call = Call(machine: nat, name: seq<nat>, length: nat, given: nat,
                       existing: bool, offset: nat, length': nat, failed: bool) {
    function Answer(): Region { Region(offset, length', machine) }

    /** The call ended with a region, new or old. */
    predicate Succeeded() { existing || (length > 0 && !failed) }
  }

  /** Where a region lies, whoever allocated it. */
  predicate SamePlace(r: Region, s: Region) { r.offset == s.offset && r.length == s.length }

  type Dir = map<seq<nat>, Region>

  ghost predicate Step(dir: Dir, c: Call, dir': Dir) {
    FindSpec(c.machine, dir, c.name, c.length, c.given, c.existing, c.offset, c.length', c.failed, dir')
  }

  /** dirs[i] is the directory before call i. */
  ghost predicate History(dirs: seq<Dir>, calls: seq<Call>) {
    |dirs| == |calls| + 1 && forall i :: 0 <= i < |calls| ==> Step(dirs[i], calls[i], dirs[i + 1])
  }

  lemma {:induction false} NameStays(dirs: seq<Dir>, calls: seq<Call>, name: seq<nat>, i: nat, j: nat)
    requires History(dirs, calls) && i <= j < |dirs| && name in dirs[i]
    ensures name in dirs[j] && dirs[j][name] == dirs[i][name]
    decreases j - i
  {
    if i < j {
      assert Step(dirs[j - 1], calls[j - 1], dirs[j - 1 + 1]);
      NameStays(dirs, calls, name, i, j - 1);
    }
  }

  lemma AnswerIsRecorded(dirs: seq<Dir>, calls: seq<Call>, i: nat)
    requires History(dirs, calls) && i < |calls| && calls[i].Succeeded()
    ensures calls[i].name in dirs[i + 1] && SamePlace(dirs[i + 1][calls[i].name], calls[i].Answer())
    ensures !calls[i].existing ==> dirs[i + 1][calls[i].name] == calls[i].Answer()
  {
    assert Step(dirs[i], calls[i], dirs[i + 1]);
  }

  /** A name asked for again gets the first region, with its first length, and is reported as existing. */
  lemma RepeatedName(dirs: seq<Dir>, calls: seq<Call>, i: nat, j: nat)
    requires History(dirs, calls) && i < j < |calls|
    requires calls[i].name == calls[j].name && calls[i].Succeeded()
    ensures calls[j].existing && SamePlace(calls[j].Answer(), calls[i].Answer())
  {
    AnswerIsRecorded(dirs, calls, i);
    NameStays(dirs, calls, calls[i].name, i + 1, j);
    assert Step(dirs[j], calls[j], dirs[j + 1]);
  }

  /** Different names never get overlapping regions, however many calls lie between. */
  lemma DistinctNames(l: Layout, dirs: seq<Dir>, calls: seq<Call>, i: nat, j: nat)
    requires History(dirs, calls) && i < |calls| && j < |calls|
    requires calls[i].name != calls[j].name && calls[i].Succeeded() && calls[j].Succeeded()
    requires l.Wf() && DirOk(l, dirs[|calls|])
    ensures NoOverlap(calls[i].Answer(), calls[j].Answer())
    ensures InArena(l, calls[i].Answer())
  {
    AnswerIsRecorded(dirs, calls, i);
    AnswerIsRecorded(dirs, calls, j);
    NameStays(dirs, calls, calls[i].name, i + 1, |calls|);
    NameStays(dirs, calls, calls[j].name, j + 1, |calls|);
  }

  /** The call allocated this region under this name. */
  predicate Makes(c: Call, name: seq<nat>, r: Region) {
    c.Succeeded() && !c.existing && c.name == name && c.Answer() == r
  }

  ghost predicate MadeBy(calls: seq<Call>, name: seq<nat>, r: Region) {
    exists i :: 0 <= i < |calls| && Makes(calls[i], name, r)
  }

  /** From an empty directory, the directory holds exactly what calls allocated, with the machine that called. */
  lemma {:induction false} DirectoryIsAnswers(dirs: seq<Dir>, calls: seq<Call>, name: seq<nat>, r: Region)
    requires History(dirs, calls) && dirs[0] == map[]
    ensures name in dirs[|calls|] && dirs[|calls|][name] == r <==> MadeBy(calls, name, r)
    decreases |calls|
  {
    if i :| 0 <= i < |calls| && Makes(calls[i], name, r) {
      AnswerIsRecorded(dirs, calls, i);
      NameStays(dirs, calls, name, i + 1, |calls|);
    }
    if calls != [] {
      var n := |calls| - 1;
      assert Step(dirs[n], calls[n], dirs[n + 1]);
      assert History(dirs[..n + 1], calls[..n]) by {
        forall i | 0 <= i < n ensures Step(dirs[..n + 1][i], calls[..n][i], dirs[..n + 1][i + 1]) {
          assert Step(dirs[i], calls[i], dirs[i + 1]);
        }
      }
      DirectoryIsAnswers(dirs[..n + 1], calls[..n], name, r);
      if i :| 0 <= i < n && Makes(calls[..n][i], name, r) {
        assert Makes(calls[i], name, r);
      }
    }
  }
}
