/** Working out on which platforms a docs feature is available from the
    features it depends on.  A dependency is written `type:name`, where the
    type picks one of the API, manifest and permission feature maps; the
    feature's platforms become the union of its dependencies' platforms.
    A dependency that cannot be resolved makes the function return `[]`
    early and leave the feature's platforms as they were. */
module FeaturesBundle {

  datatype Option<T> = None | Some(value: T)

  /** Python's str.split(':'): the pieces between colons, in order, always
      at least one. */
  function SplitColon(s: string): (parts: seq<string>)
    ensures |parts| >= 1
    ensures forall i :: 0 <= i < |parts| ==> ':' !in parts[i]
  {
    if s == [] then [""]
    else
      var rest := SplitColon(s[1..]);
      if s[0] == ':' then [""] + rest
      else [[s[0]] + rest[0]] + rest[1..]
  }

  /** ':'.join(parts). */
  function JoinColon(parts: seq<string>): string
    requires |parts| >= 1
  {
    if |parts| == 1 then parts[0] else parts[0] + ":" + JoinColon(parts[1..])
  }

  /** Splitting loses nothing: joining the pieces gives the string back. */
  lemma {:induction false} JoinSplit(s: string)
    ensures JoinColon(SplitColon(s)) == s
    decreases |s|
  {
    if s != [] {
      var rest := SplitColon(s[1..]);
      JoinSplit(s[1..]);
      if s[0] != ':' {
        var parts := [[s[0]] + rest[0]] + rest[1..];
        if |rest| == 1 {
          assert JoinColon(parts) == [s[0]] + rest[0];
        } else {
          assert parts[1..] == rest[1..];
          assert JoinColon(rest) == rest[0] + ":" + JoinColon(rest[1..]);
        }
      } else {
        assert ([""] + rest)[1..] == rest;
      }
    }
  }

  /** A string splits into exactly two pieces when it holds exactly one
      colon. */
  function ColonCount(s: string): nat {
    if s == [] then 0 else (if s[0] == ':' then 1 else 0) + ColonCount(s[1..])
  }

  lemma {:induction false} SplitCountsColons(s: string)
    ensures |SplitColon(s)| == ColonCount(s) + 1
    decreases |s|
  {
    if s != [] {
      SplitCountsColons(s[1..]);
    }
  }

  /** An entry of one of the three feature maps; its 'platforms' key may be
      missing. */
  datatype DepFeature = DepFeature(platforms: Option<seq<string>>)

  /** The API, manifest and permission feature maps, in that order. */
  datatype FeatureMaps = FeatureMaps(api: map<string, DepFeature>,
                                     manifest: map<string, DepFeature>,
                                     permission: map<string, DepFeature>)

  datatype PyError = ValueError | KeyError

  /** What one dependency contributes: an exception, nothing found, or the
      platforms of the feature it names. */
  datatype DepResult = Failed(error: PyError) | Unresolved | Resolved(platforms: seq<string>)

  function MapFor(maps: FeatureMaps, depType: string): (r: Option<map<string, DepFeature>>)
    ensures r.Some? <==> depType in {"api", "manifest", "permission"}
  {
    if depType == "api" then Some(maps.api)
    else if depType == "manifest" then Some(maps.manifest)
    else if depType == "permission" then Some(maps.permission)
    else None
  }

  /** One pass of the loop body: unpack `type:name`, pick the map, look the
      name up, read its platforms. */
  function Classify(dependency: string, maps: FeatureMaps): (r: DepResult)
    ensures r == Failed(ValueError) <==> ColonCount(dependency) != 1
    ensures r.Resolved? ==>
              && var parts := SplitColon(dependency);
              && |parts| == 2
              && MapFor(maps, parts[0]).Some? && parts[1] in MapFor(maps, parts[0]).value
              && MapFor(maps, parts[0]).value[parts[1]].platforms == Some(r.platforms)
  {
    SplitCountsColons(dependency);
    var parts := SplitColon(dependency);
    if |parts| != 2 then Failed(ValueError)
    else match MapFor(maps, parts[0])
      case None => Failed(KeyError)
      case Some(features) =>
        if parts[1] !in features then Unresolved
        else match features[parts[1]].platforms
          case None => Failed(KeyError)
          case Some(ps) => Resolved(ps)
  }

  /** What the function hands back: a list it returns, the None it returns
      after writing, or an exception. */
  datatype Outcome = Returned(list: seq<string>) | ReturnedNone | Raised(error: PyError)

  /** The loop's result from dependency `i` on, with `acc` gathered so far. */
  datatype Resolution = Stopped(outcome: Outcome) | Union(platforms: set<string>)

  function ResolveFrom(deps: seq<string>, maps: FeatureMaps, i: nat, acc: set<string>): Resolution
    requires i <= |deps|
    decreases |deps| - i
  {
    if i == |deps| then Union(acc)
    else match Classify(deps[i], maps)
      case Failed(e) => Stopped(Raised(e))
      case Unresolved => Stopped(Returned([]))
      case Resolved(ps) => ResolveFrom(deps, maps, i + 1, acc + (set p | p in ps))
  }

  /** The first dependency at or after `i` that does not resolve, or |deps|. */
  function FirstFailure(deps: seq<string>, maps: FeatureMaps, i: nat): (k: nat)
    requires i <= |deps|
    ensures i <= k <= |deps|
    ensures forall j :: i <= j < k ==> Classify(deps[j], maps).Resolved?
    ensures k < |deps| ==> !Classify(deps[k], maps).Resolved?
    decreases |deps| - i
  {
    if i == |deps| || !Classify(deps[i], maps).Resolved? then i else FirstFailure(deps, maps, i + 1)
  }

  /** The exception or the early return a dependency that does not resolve
      causes. */
  function StopFor(d: DepResult): Outcome
    requires !d.Resolved?
  {
    if d.Failed? then Raised(d.error) else Returned([])
  }

  /** The loop collects the union of every dependency's platforms when all
      of them resolve; otherwise the first one that does not decides, and
      dependencies after it are never looked at. */
  lemma {:induction false} ResolveFromMeaning(deps: seq<string>, maps: FeatureMaps, i: nat, acc: set<string>)
    requires i <= |deps|
    ensures var r := ResolveFrom(deps, maps, i, acc);
            var k := FirstFailure(deps, maps, i);
            && (r.Union? <==> k == |deps|)
            && (r.Stopped? ==> r.outcome == StopFor(Classify(deps[k], maps)))
            && (r.Union? ==> forall p :: p in r.platforms <==>
                  p in acc || exists j :: i <= j < |deps| && p in Classify(deps[j], maps).platforms)
    decreases |deps| - i
  {
    if i < |deps| {
      var d := Classify(deps[i], maps);
      if d.Resolved? {
        ResolveFromMeaning(deps, maps, i + 1, acc + (set p | p in d.platforms));
        var r := ResolveFrom(deps, maps, i, acc);
        if r.Union? {
          forall p
            ensures p in r.platforms <==>
                    p in acc || exists j :: i <= j < |deps| && p in Classify(deps[j], maps).platforms
          {
            if p in d.platforms {
              assert i <= i < |deps| && p in Classify(deps[i], maps).platforms;
            }
            if exists j :: i <= j < |deps| && p in Classify(deps[j], maps).platforms {
              var j :| i <= j < |deps| && p in Classify(deps[j], maps).platforms;
              if j > i {
                assert i + 1 <= j < |deps| && p in Classify(deps[j], maps).platforms;
              }
            }
          }
        }
      }
    }
  }

  /** The platforms of a feature whose dependencies all resolve depend only
      on which dependencies it lists, not on their order or repetition. */
  lemma UnionIgnoresOrder(deps1: seq<string>, deps2: seq<string>, maps: FeatureMaps)
    requires forall d :: d in deps1 <==> d in deps2
    requires ResolveFrom(deps1, maps, 0, {}).Union? && ResolveFrom(deps2, maps, 0, {}).Union?
    ensures ResolveFrom(deps1, maps, 0, {}) == ResolveFrom(deps2, maps, 0, {})
  {
    ResolveFromMeaning(deps1, maps, 0, {});
    ResolveFromMeaning(deps2, maps, 0, {});
    var s1 := ResolveFrom(deps1, maps, 0, {}).platforms;
    var s2 := ResolveFrom(deps2, maps, 0, {}).platforms;
    forall p | p in s1
      ensures p in s2
    {
      var j :| 0 <= j < |deps1| && p in Classify(deps1[j], maps).platforms;
      assert deps1[j] in deps2;
      var k :| 0 <= k < |deps2| && deps2[k] == deps1[j];
    }
    forall p | p in s2
      ensures p in s1
    {
      var j :| 0 <= j < |deps2| && p in Classify(deps2[j], maps).platforms;
      assert deps2[j] in deps1;
      var k :| 0 <= k < |deps1| && deps1[k] == deps2[j];
    }
  }

  /** A feature, reduced to the two keys the function touches. */
  class Feature {
    var dependencies: Option<seq<string>>
    var platforms: Option<set<string>>

    constructor(dependencies: Option<seq<string>>, platforms: Option<set<string>>)
      ensures this.dependencies == dependencies && this.platforms == platforms
    {
      this.dependencies := dependencies;
      this.platforms := platforms;
    }
  }

  /** _AddPlatformsFromDependencies. */
  method AddPlatformsFromDependencies(feature: Feature, maps: FeatureMaps) returns (r: Outcome)
    modifies feature
    ensures feature.dependencies == old(feature.dependencies)
    ensures old(feature.dependencies).None? ==>
              r == Returned(["apps", "extensions"]) && feature.platforms == old(feature.platforms)
    ensures old(feature.dependencies).Some? ==>
              match ResolveFrom(old(feature.dependencies).value, maps, 0, {})
              case Union(s) => r == ReturnedNone && feature.platforms == Some(s)
              case Stopped(o) => r == o && feature.platforms == old(feature.platforms)
  {
    if feature.dependencies.None? {
      return Returned(["apps", "extensions"]);
    }
    var deps := feature.dependencies.value;
    var platforms: set<string> := {};
    var i := 0;
    while i < |deps|
      invariant i <= |deps|
      invariant ResolveFrom(deps, maps, i, platforms) == ResolveFrom(deps, maps, 0, {})
      modifies {}
    {
      SplitCountsColons(deps[i]);
      var parts := SplitColon(deps[i]);
      if |parts| != 2 {
        return Raised(ValueError);
      }
      var depType, depName := parts[0], parts[1];
      var depFeatures;
      if depType == "api" {
        depFeatures := maps.api;
      } else if depType == "manifest" {
        depFeatures := maps.manifest;
      } else if depType == "permission" {
        depFeatures := maps.permission;
      } else {
        return Raised(KeyError);
      }
      if depName !in depFeatures {
        return Returned([]);
      }
      if depFeatures[depName].platforms.None? {
        return Raised(KeyError);
      }
      platforms := platforms + (set p | p in depFeatures[depName].platforms.value);
      i := i + 1;
    }
    feature.platforms := Some(platforms);
    return ReturnedNone;
  }

  /** An empty dependency list writes an empty platform list. */
  lemma NoDependenciesResolveToNothing(maps: FeatureMaps)
    ensures ResolveFrom([], maps, 0, {}) == Union({})
  {
  }

  /** A dependency that cannot be resolved stops the loop with the early
      `[]` even when every dependency before it resolved, so nothing is
      written to the feature. */
  lemma UnresolvedReturnsEmpty(deps: seq<string>, maps: FeatureMaps, k: nat)
    requires k < |deps| && Classify(deps[k], maps) == Unresolved
    requires forall j :: 0 <= j < k ==> Classify(deps[j], maps).Resolved?
    ensures ResolveFrom(deps, maps, 0, {}) == Stopped(Returned([]))
  {
    ResolveFromMeaning(deps, maps, 0, {});
    var f := FirstFailure(deps, maps, 0);
    assert f == k;
  }
}
