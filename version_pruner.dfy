/**
 * The build script's version pruning: starting from the target version
 * and a fixed list of essential versions, it keeps every version whose
 * block is present in minecraft-data's `data.js`, following the `pc`
 * dependencies each kept block `require`s. The text search for a
 * version's block is abstracted as a map from the versions whose block is
 * found to the dependencies listed in it.
 */
module VersionPruner {
  /** The data directory a dependency points into. */
  datatype Platform = Pc | Bedrock

  /** One `require("./minecraft-data/data/<platform>/<version>/...")` inside a block. */
  datatype Dep = Dep(platform: Platform, version: string)

  /** The versions whose block is found, each with its dependencies in textual order. */
  type Blocks = map<string, seq<Dep>>

  /** The versions always kept when present, so that switching servers keeps working. */
  const Essentials: seq<string> :=
    ["1.8.9", "1.12.2", "1.16.5", "1.18.2", "1.19.4", "1.20", "1.20.1", "1.20.2", "1.20.4", "1.21"]

  /** The starting worklist: the target version, then the essential versions. */
  function InitialWork(version: string): (r: seq<string>)
    ensures |r| == 1 + |Essentials| && r[0] == version && r[1..] == Essentials
    ensures forall v :: v in r <==> v == version || v in Essentials
  {
    [version] + Essentials
  }

  /** The versions a block enqueues: its `pc` dependencies, in order; `bedrock` ones are ignored. */
  function PcDeps(deps: seq<Dep>): (r: seq<string>)
    ensures forall v :: v in r <==> Dep(Pc, v) in deps
    ensures |r| <= |deps|
  {
    if deps == [] then []
    else (if deps[0].platform == Pc then [deps[0].version] else []) + PcDeps(deps[1..])
  }

  /** `s` contains every pc dependency, found in `blocks`, of each found version in `s`. */
  ghost predicate Closed(blocks: Blocks, s: set<string>) {
    forall v, d :: v in s && v in blocks && d in blocks && Dep(Pc, d) in blocks[v] ==> d in s
  }

  /** `s` contains each found version of `start` and is closed under found pc dependencies. */
  ghost predicate Covers(blocks: Blocks, start: seq<string>, s: set<string>) {
    (forall v :: v in start && v in blocks ==> v in s) && Closed(blocks, s)
  }

  /** No version occurs twice in `s`. */
  predicate Distinct(s: seq<string>) {
    forall i, j | 0 <= i < j < |s| :: s[i] != s[j]
  }

  /**
   * What the worklist loop keeps true, for the kept set `kept` and the
   * pending list `work`: only found versions are kept; every found start
   * version and every found pc dependency of a kept version is kept or
   * pending; and everything kept, and every found pending version, lies in
   * each set that covers `start`.
   */
  ghost predicate Progress(blocks: Blocks, start: seq<string>, kept: set<string>, work: seq<string>) {
    && kept <= blocks.Keys
    && (forall v :: v in start && v in blocks ==> v in kept || v in work)
    && (forall v, d :: v in kept && d in blocks && Dep(Pc, d) in blocks[v] ==> d in kept || d in work)
    && (forall s: set<string> :: Covers(blocks, start, s) ==>
          kept <= s && forall v :: v in work && v in blocks ==> v in s)
  }

  /** Dropping a version that is already kept, or whose block is missing, keeps `Progress`. */
  lemma ProgressSkip(blocks: Blocks, start: seq<string>, kept: set<string>, work: seq<string>)
    requires Progress(blocks, start, kept, work) && |work| > 0
    requires work[0] in kept || work[0] !in blocks
    ensures Progress(blocks, start, kept, work[1..])
  {
    forall v | v in work
      ensures v == work[0] || v in work[1..]
    {
      var i :| 0 <= i < |work| && work[i] == v;
      if i > 0 {
        assert work[1..][i - 1] == v;
      }
    }
  }

  /** Keeping a found version and enqueueing its pc dependencies keeps `Progress`. */
  lemma ProgressAdd(blocks: Blocks, start: seq<string>, kept: set<string>, work: seq<string>)
    requires Progress(blocks, start, kept, work) && |work| > 0
    requires work[0] in blocks && work[0] !in kept
    ensures Progress(blocks, start, kept + {work[0]}, work[1..] + PcDeps(blocks[work[0]]))
  {
    var c := work[0];
    var next := work[1..] + PcDeps(blocks[c]);
    forall v | v in work
      ensures v == c || v in next
    {
      var i :| 0 <= i < |work| && work[i] == v;
      if i > 0 {
        assert next[i - 1] == v;
      }
    }
    forall v | v in PcDeps(blocks[c])
      ensures v in next
    {
      var i :| 0 <= i < |PcDeps(blocks[c])| && PcDeps(blocks[c])[i] == v;
      assert next[|work| - 1 + i] == v;
    }
  }

  /** Once nothing is pending, the kept set covers `start` and lies inside every covering set. */
  lemma ProgressDone(blocks: Blocks, start: seq<string>, kept: set<string>)
    requires Progress(blocks, start, kept, [])
    ensures Covers(blocks, start, kept)
    ensures forall s: set<string> :: Covers(blocks, start, s) ==> kept <= s
  {
  }

  /**
   * The worklist loop of `extractRequiredVersions` from the list `start`:
   * the kept versions, in the order they are added to the set. The result
   * is exactly the set of found versions reachable from `start` through pc
   * dependencies of found versions: it holds only found versions, it covers
   * `start` and is closed, and it lies inside every other such set.
   */
  method Extract(blocks: Blocks, start: seq<string>) returns (keep: seq<string>)
    ensures Distinct(keep)
    ensures forall v :: v in keep ==> v in blocks
    ensures Covers(blocks, start, set v | v in keep)
    ensures forall s: set<string> :: Covers(blocks, start, s) ==> forall v :: v in keep ==> v in s
  {
    keep := [];
    ghost var kept: set<string> := {};
    var work := start;
    while |work| > 0
      invariant Distinct(keep) && forall v :: v in keep <==> v in kept
      invariant Progress(blocks, start, kept, work)
      decreases |blocks.Keys - kept|, |work|
    {
      var current := work[0];
      if current in keep {
        ProgressSkip(blocks, start, kept, work);
        work := work[1..];
        continue;
      }
      if current in blocks {
        ProgressAdd(blocks, start, kept, work);
        assert blocks.Keys - (kept + {current}) < blocks.Keys - kept;
        keep, kept := keep + [current], kept + {current};
        work := work[1..] + PcDeps(blocks[current]);
      } else {
        ProgressSkip(blocks, start, kept, work);
        work := work[1..];
      }
    }
    ProgressDone(blocks, start, kept);
  }

  /** `extractRequiredVersions(content, version)`: the worklist started from the target and the essentials. */
  method ExtractRequiredVersions(blocks: Blocks, version: string) returns (keep: seq<string>)
    ensures Distinct(keep)
    ensures version in blocks ==> version in keep
    ensures forall v :: v in Essentials && v in blocks ==> v in keep
    ensures forall v :: v in keep ==> v in blocks
    ensures Closed(blocks, set v | v in keep)
    ensures forall s: set<string> :: Covers(blocks, InitialWork(version), s) ==> forall v :: v in keep ==> v in s
  {
    keep := Extract(blocks, InitialWork(version));
  }
}
