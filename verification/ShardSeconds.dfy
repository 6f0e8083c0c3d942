/** Seconds in no shard. */
module ShardSeconds {
  // A case whose file is not found adds to its directory's seconds and to no file's, so it is in no shard's
  // seconds: the shards add up to the run exactly when such cases took no time.

  import opened Options
  import opened Paths
  import opened Measuring
  import opened Packing
  import opened Sharding
  import opened ShardingTheorems
  import opened ShardPlan
  import opened ShardPlanTheorems

  /** Time of all cases that have no file. */
  function UnresolvedTime(cases: seq<Case>, files: set<string>): real {
    if cases == [] then 0.0
    else
      var last := cases[|cases| - 1];
      UnresolvedTime(cases[..|cases| - 1], files) + if Unresolved(last, files) then last.time else 0.0
  }

  /** Time of all cases. */
  function RunTime(cases: seq<Case>): real {
    if cases == [] then 0.0 else RunTime(cases[..|cases| - 1]) + cases[|cases| - 1].time
  }

  // ---- Sums by any key

  function TimeAt(cases: seq<Case>, keyOf: Case -> Option<string>, key: string): real {
    if cases == [] then 0.0
    else
      var last := cases[|cases| - 1];
      TimeAt(cases[..|cases| - 1], keyOf, key) + if keyOf(last) == Some(key) then last.time else 0.0
  }

  function TimeAtAll(keys: seq<string>, cases: seq<Case>, keyOf: Case -> Option<string>): real {
    if keys == [] then 0.0 else TimeAtAll(keys[1..], cases, keyOf) + TimeAt(cases, keyOf, keys[0])
  }

  function TimeNowhere(cases: seq<Case>, keyOf: Case -> Option<string>): real {
    if cases == [] then 0.0
    else
      var last := cases[|cases| - 1];
      TimeNowhere(cases[..|cases| - 1], keyOf) + if keyOf(last).None? then last.time else 0.0
  }

  ghost predicate NoRepeats(keys: seq<string>) {
    forall i, j | 0 <= i < j < |keys| :: keys[i] != keys[j]
  }

  lemma {:induction false} LastCase(keys: seq<string>, cases: seq<Case>, keyOf: Case -> Option<string>)
    requires NoRepeats(keys) && cases != []
    ensures var last := cases[|cases| - 1];
            TimeAtAll(keys, cases, keyOf) == TimeAtAll(keys, cases[..|cases| - 1], keyOf) +
            if keyOf(last).Some? && keyOf(last).value in keys then last.time else 0.0
  {
    if keys != [] {
      LastCase(keys[1..], cases, keyOf);
      assert keys == [keys[0]] + keys[1..];
      assert keys[0] !in keys[1..] by {
        forall j | 0 <= j < |keys[1..]| ensures keys[1..][j] != keys[0] {
          assert keys[0] != keys[j + 1];
        }
      }
    }
  }

  lemma {:induction false} NoCases(keys: seq<string>, keyOf: Case -> Option<string>)
    ensures TimeAtAll(keys, [], keyOf) == 0.0
  {
    if keys != [] {
      NoCases(keys[1..], keyOf);
    }
  }

  /** With every key listed once, the keys' times and the time of cases without a key make up the run. */
  lemma {:induction false} KeysMakeUpTheRun(keys: seq<string>, cases: seq<Case>, keyOf: Case -> Option<string>)
    requires NoRepeats(keys) && forall c | c in cases && keyOf(c).Some? :: keyOf(c).value in keys
    ensures TimeAtAll(keys, cases, keyOf) + TimeNowhere(cases, keyOf) == RunTime(cases)
    decreases |cases|
  {
    if cases == [] {
      NoCases(keys, keyOf);
    } else {
      var n := |cases| - 1;
      assert cases[n] in cases && forall c | c in cases[..n] :: c in cases;
      KeysMakeUpTheRun(keys, cases[..n], keyOf);
      LastCase(keys, cases, keyOf);
    }
  }

  lemma {:induction false} SumIsTimeAtAll(keys: seq<string>, sums: map<string, real>, cases: seq<Case>, keyOf: Case -> Option<string>)
    requires forall key | key in keys :: key in sums && sums[key] == TimeAt(cases, keyOf, key)
    ensures SumOf(keys, sums) == TimeAtAll(keys, cases, keyOf)
  {
    if keys != [] {
      SumIsTimeAtAll(keys[1..], sums, cases, keyOf);
    }
  }

  // ---- By directory, and by file

  function ByDirectory(): Case -> Option<string> {
    (c: Case) => Some(c.directory)
  }

  function ByFile(files: set<string>): Case -> Option<string> {
    (c: Case) => Resolve(files, c.directory, c.tail)
  }

  lemma {:induction false} DirectoryTimes(cases: seq<Case>, d: string)
    ensures TimeAt(cases, ByDirectory(), d) == TimeIn(cases, d) && TimeNowhere(cases, ByDirectory()) == 0.0
  {
    if cases != [] {
      DirectoryTimes(cases[..|cases| - 1], d);
    }
  }

  lemma {:induction false} FileTimesAre(cases: seq<Case>, files: set<string>, f: string)
    ensures TimeAt(cases, ByFile(files), f) == TimeOf(cases, files, f)
    ensures TimeNowhere(cases, ByFile(files)) == UnresolvedTime(cases, files)
  {
    if cases != [] {
      FileTimesAre(cases[..|cases| - 1], files, f);
    }
  }

  /** The directories' seconds are the run's. */
  lemma DirectoriesMakeUpTheRun(seconds: Tally, cases: seq<Case>)
    requires SumsDirectories(seconds, cases)
    ensures SumOf(seconds.keys, seconds.sums) == RunTime(cases)
  {
    forall d | d in seconds.keys ensures seconds.sums[d] == TimeAt(cases, ByDirectory(), d) {
      DirectoryTimes(cases, d);
      assert seconds.Get(d) == TimeIn(cases, d);
    }
    DirectoryTimes(cases, "");
    SumIsTimeAtAll(seconds.keys, seconds.sums, cases, ByDirectory());
    KeysMakeUpTheRun(seconds.keys, cases, ByDirectory());
  }

  /** The files' seconds are the run's but for the cases without a file. */
  lemma FilesMakeUpTheRest(fileSeconds: Tally, cases: seq<Case>, files: set<string>)
    requires SumsFiles(fileSeconds, cases, files)
    ensures SumOf(fileSeconds.keys, fileSeconds.sums) + UnresolvedTime(cases, files) == RunTime(cases)
  {
    forall f | f in fileSeconds.keys ensures fileSeconds.sums[f] == TimeAt(cases, ByFile(files), f) {
      FileTimesAre(cases, files, f);
      assert fileSeconds.Get(f) == TimeOf(cases, files, f);
    }
    FileTimesAre(cases, files, "");
    SumIsTimeAtAll(fileSeconds.keys, fileSeconds.sums, cases, ByFile(files));
    KeysMakeUpTheRun(fileSeconds.keys, cases, ByFile(files));
  }

  /** The shards' reported seconds and the time of cases without a file make up the run: the shards alone
      add up to it if and only if those cases' times add up to zero. */
  lemma PlannerSecondsAddUp(groups: seq<Group>, conflicts: seq<Conflict>, m: Measured, cases: seq<Case>, files: set<string>,
                            onDisk: seq<string>, bins: nat, fast: Conflict, catchAll: seq<string>, aliases: map<string, string>)
    requires Setting(groups, conflicts, m, onDisk, bins, catchAll)
    requires SumsDirectories(m.seconds, cases) && SumsFiles(m.fileSeconds, cases, files)
    requires PlanAll(groups, conflicts, m, onDisk, bins, fast, catchAll, aliases).Ready?
    requires var packed := PackedShards(m, Packable(groups, m, onDisk), bins, fast, catchAll, aliases).planned;
             forall i | 1 <= i < |packed| :: packed[i].name != packed[0].name
    requires forall leaf | leaf in m.fileSeconds.keys :: UnderAny(leaf, catchAll)
    ensures var planned := PlanAll(groups, conflicts, m, onDisk, bins, fast, catchAll, aliases).planned;
            var reported := SerialOfFirst(TakesOf(groups, planned), m.fileSeconds.keys, m.fileSeconds.sums, |planned|);
            var run := SumOf(m.seconds.keys, m.seconds.sums);
            && reported + UnresolvedTime(cases, files) == run
            && (reported == run <==> UnresolvedTime(cases, files) == 0.0)
  {
    FileSecondsAddUp(groups, conflicts, m, onDisk, bins, fast, catchAll, aliases);
    FilesMakeUpTheRest(m.fileSeconds, cases, files);
    DirectoriesMakeUpTheRun(m.seconds, cases);
  }
}
