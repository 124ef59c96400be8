/** Which profiles a `profile set` run targets. */
module Selection {
  import opened Wrappers
  import opened Node
  import opened SetRequest

  /**
   * `id` matches at least one of `patterns`. How one pattern matches a name
   * is the store's business and is left abstract as `matches`.
   */
  predicate MatchesAny(patterns: seq<string>, id: string, matches: (string, string) -> bool) {
    exists pat :: pat in patterns && matches(pat, id)
  }

  /** The store's name filter: the profiles matching some pattern, in their original order. */
  function FilterByName(profiles: seq<Profile>, patterns: seq<string>, matches: (string, string) -> bool): (r: seq<Profile>)
    ensures |r| <= |profiles|
    ensures forall p :: p in r <==> p in profiles && MatchesAny(patterns, p.id, matches)
  {
    if |profiles| == 0 then []
    else
      var rest := FilterByName(profiles[1..], patterns, matches);
      assert forall p :: p in profiles <==> p == profiles[0] || p in profiles[1..];
      if MatchesAny(patterns, profiles[0].id, matches) then [profiles[0]] + rest else rest
  }

  /** The patterns actually used: the arguments, or "default" when there are none. */
  function EffectivePatterns(args: seq<string>): seq<string> {
    if |args| > 0 then args else ["default"]
  }

  /**
   * The selection branch: no profiles at all is an error before anything
   * else; the all-switch takes every profile; otherwise the arguments (or
   * "default") filter the list, and an empty result is an error.
   */
  function Select(profiles: seq<Profile>, args: seq<string>, all: bool, matches: (string, string) -> bool): (r: Result<seq<Profile>, Error>)
    ensures |profiles| == 0 ==> r == Failure(NoProfiles)
    ensures |profiles| > 0 && all ==> r == Success(profiles)
    ensures |profiles| > 0 && !all ==>
      (r.Success? <==> exists p :: p in profiles && MatchesAny(EffectivePatterns(args), p.id, matches))
    ensures r.Failure? && |profiles| > 0 ==> r.error == (if |args| > 0 then NoMatch(args) else NoDefault)
    ensures r.Success? ==> 0 < |r.value| <= |profiles| && forall p :: p in r.value ==> p in profiles
    ensures r.Success? && !all ==>
      forall p :: p in profiles ==> (p in r.value <==> MatchesAny(EffectivePatterns(args), p.id, matches))
  {
    if |profiles| == 0 then Failure(NoProfiles)
    else if all then Success(profiles)
    else if |args| > 0 then
      var found := FilterByName(profiles, args, matches);
      if |found| == 0 then Failure(NoMatch(args))
      else assert found[0] in found; Success(found)
    else
      var found := FilterByName(profiles, ["default"], matches);
      if |found| == 0 then Failure(NoDefault)
      else assert found[0] in found; Success(found)
  }

  /**
   * When the matcher treats the pattern "default" as an exact name, a run
   * without arguments or all-switch targets exactly the profiles named
   * "default", and fails when there is none.
   */
  lemma DefaultSelectsExactly(profiles: seq<Profile>, matches: (string, string) -> bool)
    requires |profiles| > 0
    requires forall id :: matches("default", id) <==> id == "default"
    ensures Select(profiles, [], false, matches).Success? <==> exists p :: p in profiles && p.id == "default"
    ensures Select(profiles, [], false, matches).Failure? ==> Select(profiles, [], false, matches).error == NoDefault
    ensures Select(profiles, [], false, matches).Success? ==>
      forall p :: p in Select(profiles, [], false, matches).value <==> p in profiles && p.id == "default"
  {
    assert EffectivePatterns([]) == ["default"];
    assert forall id :: MatchesAny(["default"], id, matches) <==> id == "default" by {
      forall id ensures MatchesAny(["default"], id, matches) <==> id == "default" {
        if id == "default" {
          assert "default" in ["default"];
        }
      }
    }
  }
}
